/**
 * The two request handlers and the in-memory receipts store.
 *
 * processReceipt rejects a receipt whose retailer or total is empty or
 * whose item list is empty; otherwise it scores the receipt, stores
 * {id, points} under a fresh id and answers with that id.
 * getReceiptPoints reads the id out of "/receipts/{id}/points" and answers
 * with the stored points, or "not found".
 *
 * The fresh id comes from a uuid generator; here it is a parameter. The
 * HTTP status codes are the two response datatypes.
 */
module Service {
  import opened Wrappers
  import opened Text
  import opened Scoring

  /** What the store keeps for one submission. */
  datatype ReceiptData = ReceiptData(id: string, points: int)

  datatype ProcessResponse = Processed(id: string) | BadRequest

  datatype PointsResponse = Points(points: int) | NotFound

  /** The presence check made before scoring. */
  predicate IsComplete(r: Receipt) {
    r.retailer != "" && r.total != "" && |r.items| != 0
  }

  const ReceiptsPrefix := "/receipts/"
  const PointsSuffix := "/points"

  /** The id getReceiptPoints reads from a request path. */
  function PathId(path: string): string {
    TrimSuffix(TrimPrefix(path, ReceiptsPrefix), PointsSuffix)
  }

  /** The path a client builds from an id gives that id back, whatever the id. */
  lemma PathIdOfPointsPath(id: string)
    ensures PathId(ReceiptsPrefix + id + PointsSuffix) == id
  {
    var path := ReceiptsPrefix + id + PointsSuffix;
    assert ReceiptsPrefix <= path;
    var rest := TrimPrefix(path, ReceiptsPrefix);
    assert ReceiptsPrefix + rest == ReceiptsPrefix + (id + PointsSuffix);
    assert rest == (ReceiptsPrefix + rest)[|ReceiptsPrefix|..];
    assert rest == id + PointsSuffix;
    assert HasSuffix(rest, PointsSuffix) by {
      assert rest[|rest| - |PointsSuffix|..] == PointsSuffix;
    }
    var r := TrimSuffix(rest, PointsSuffix);
    assert r + PointsSuffix == id + PointsSuffix;
    assert r == (r + PointsSuffix)[..|r|];
  }

  /** The id lies between the prefix and the suffix when both are present, and nothing is trimmed that is absent. */
  lemma PathIdParts(path: string)
    ensures ReceiptsPrefix <= path && HasSuffix(path[|ReceiptsPrefix|..], PointsSuffix) ==>
      path == ReceiptsPrefix + PathId(path) + PointsSuffix
    ensures !(ReceiptsPrefix <= path) && !HasSuffix(path, PointsSuffix) ==> PathId(path) == path
  {
    if ReceiptsPrefix <= path && HasSuffix(path[|ReceiptsPrefix|..], PointsSuffix) {
      var rest := TrimPrefix(path, ReceiptsPrefix);
      assert rest == path[|ReceiptsPrefix|..];
      assert ReceiptsPrefix + rest == path;
      assert PathId(path) + PointsSuffix == rest;
    }
  }

  /** The receipts store: a map from id to the data stored under it. */
  class ReceiptStore {
    var entries: map<string, ReceiptData>

    /** Every record is filed under its own id. */
    ghost predicate Valid()
      reads this
    {
      forall id :: id in entries ==> entries[id].id == id
    }

    constructor ()
      ensures Valid() && entries == map[]
    {
      entries := map[];
    }

    /** Stores {id, points} under id; a record already there is replaced. */
    method Store(id: string, points: int)
      requires Valid()
      modifies this
      ensures Valid()
      ensures entries == old(entries)[id := ReceiptData(id, points)]
    {
      entries := entries[id := ReceiptData(id, points)];
    }

    /** The record stored under id, if any. */
    method Load(id: string) returns (found: Option<ReceiptData>)
      requires Valid()
      ensures id in entries ==> found == Some(entries[id])
      ensures id !in entries ==> found == None
      ensures found.Some? ==> found.value.id == id
    {
      if id in entries {
        found := Some(entries[id]);
      } else {
        found := None;
      }
    }
  }

  /**
   * processReceipt: an incomplete receipt is rejected and nothing is
   * stored; a complete one is scored and stored under `id`.
   */
  method ProcessReceipt(store: ReceiptStore, receipt: Receipt, id: string) returns (response: ProcessResponse)
    requires store.Valid()
    modifies store
    ensures store.Valid()
    ensures !IsComplete(receipt) ==> response == BadRequest && store.entries == old(store.entries)
    ensures IsComplete(receipt) ==>
      && response == Processed(id)
      && store.entries == old(store.entries)[id := ReceiptData(id, ReceiptPoints(receipt))]
  {
    if receipt.retailer == "" || receipt.total == "" || |receipt.items| == 0 {
      return BadRequest;
    }
    var points := CalculatePoints(receipt);
    store.Store(id, points);
    response := Processed(id);
  }

  /** getReceiptPoints: the points stored under the path's id, or not found. */
  method GetReceiptPoints(store: ReceiptStore, path: string) returns (response: PointsResponse)
    requires store.Valid()
    ensures PathId(path) in store.entries ==> response == Points(store.entries[PathId(path)].points)
    ensures PathId(path) !in store.entries ==> response == NotFound
  {
    var id := PathId(path);
    var found := store.Load(id);
    if found.None? {
      return NotFound;
    }
    response := Points(found.value.points);
  }

  /**
   * A client's submit-then-lookup: the id returned for a complete receipt
   * leads back to exactly the engine's score; a rejected receipt leaves
   * the lookup as it was.
   */
  method SubmitThenLookup(store: ReceiptStore, receipt: Receipt, id: string) returns (lookup: PointsResponse)
    requires store.Valid()
    modifies store
    ensures store.Valid()
    ensures IsComplete(receipt) ==> lookup == Points(ReceiptPoints(receipt))
    ensures !IsComplete(receipt) ==>
      lookup == if id in old(store.entries) then Points(old(store.entries)[id].points) else NotFound
  {
    var response := ProcessReceipt(store, receipt, id);
    var returned := if response.Processed? then response.id else id;
    PathIdOfPointsPath(returned);
    lookup := GetReceiptPoints(store, ReceiptsPrefix + returned + PointsSuffix);
  }

  /** Submitting the same receipt twice under two ids keeps two records with the same points. */
  method SubmitTwice(store: ReceiptStore, receipt: Receipt, first: string, second: string)
    returns (one: PointsResponse, two: PointsResponse)
    requires store.Valid() && first != second
    modifies store
    ensures store.Valid()
    ensures IsComplete(receipt) ==> one == two == Points(ReceiptPoints(receipt))
    ensures IsComplete(receipt) ==> store.entries.Keys == old(store.entries).Keys + {first, second}
  {
    var r1 := ProcessReceipt(store, receipt, first);
    var r2 := ProcessReceipt(store, receipt, second);
    PathIdOfPointsPath(first);
    PathIdOfPointsPath(second);
    one := GetReceiptPoints(store, ReceiptsPrefix + first + PointsSuffix);
    two := GetReceiptPoints(store, ReceiptsPrefix + second + PointsSuffix);
  }
}
