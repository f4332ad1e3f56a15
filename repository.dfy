/** The resource helpers `getDocument`, `createDocument`, `updateDocument` and
    `deleteDocument` over the two collections `users` and `quizzes`. Each store
    call may fail (the `...Fault` inputs); every outcome is collapsed into a
    `{status, data}` result with status 200, 404 or 500. */
module Repository {
  import opened Documents

  datatype Result = Result(status: int, data: Doc)

  /** What a helper that writes leaves in its collection, and what it returns. */
  datatype Applied = Applied(coll: Coll, result: Result)

  datatype CollName = Users | Quizzes

  const Failed: Result := Result(500, map[])
  const NotFound: Result := Result(404, map[])

  function Other(c: CollName): CollName
  {
    if c == Users then Quizzes else Users
  }

  /** `{ ...doc, id }`: the stored fields with `id` set to the document's id. */
  function WithId(d: Doc, id: string): (r: Doc)
    ensures r.Keys == d.Keys + {"id"} && r["id"] == Str(id)
    ensures forall k :: k in d && k != "id" ==> r[k] == d[k]
  {
    d["id" := Str(id)]
  }

  /** `getDocument`: the stored fields plus the requested id when the document
      exists, 404 with `{}` when it does not, 500 with `{}` when the read fails. */
  function Get(coll: Coll, id: string, fault: bool): (r: Result)
    ensures r.status == 200 || r.status == 404 || r.status == 500
    ensures r.status == 200 <==> !fault && id in coll
    ensures r.status == 404 <==> !fault && id !in coll
    ensures r.status != 200 ==> r.data == map[]
    ensures r.status == 200 ==>
              && r.data.Keys == coll[id].Keys + {"id"}
              && r.data["id"] == Str(id)
              && forall k :: k in coll[id] && k != "id" ==> r.data[k] == coll[id][k]
  {
    if fault then Failed
    else if id in coll then Result(200, WithId(coll[id], id))
    else NotFound
  }

  /** `createDocument`: `add` stores the body under the id Firestore generates,
      `newId`, which is in no document of the collection yet; the result is then
      whatever `getDocument` returns for `newId`. A failing `add` stores nothing
      and gives 500 with `{}`. */
  function Create(coll: Coll, body: Doc, newId: string, addFault: bool, readFault: bool): (a: Applied)
    requires newId !in coll
    ensures addFault ==> a == Applied(coll, Failed)
    ensures !addFault ==>
              && a.coll.Keys == coll.Keys + {newId}
              && a.coll[newId] == body
              && forall id :: id in coll ==> a.coll[id] == coll[id]
    ensures a.result.status == 200 <==> !addFault && !readFault
    ensures a.result.status == 200 ==> a.result.data == WithId(body, newId)
    ensures a.result.status != 200 ==> a.result == Failed
  {
    if addFault then Applied(coll, Failed)
    else
      var c := coll[newId := body];
      Applied(c, Get(c, newId, readFault))
  }

  /** `updateDocument`: a merge of the patch into the document followed by a
      re-read. Firestore's `update` fails on a missing document, so that case
      gives 500 like a failing store call and changes nothing. */
  function Update(coll: Coll, id: string, p: Patch, updateFault: bool, readFault: bool): (a: Applied)
    ensures updateFault || id !in coll ==> a == Applied(coll, Failed)
    ensures !updateFault && id in coll ==>
              && a.coll.Keys == coll.Keys
              && a.coll[id] == Merge(coll[id], p)
              && forall other :: other in coll && other != id ==> a.coll[other] == coll[other]
    ensures a.result.status == 200 <==> !updateFault && !readFault && id in coll
    ensures a.result.status == 200 ==> a.result.data == WithId(Merge(coll[id], p), id)
    ensures a.result.status != 200 ==> a.result == Failed
  {
    if updateFault || id !in coll then Applied(coll, Failed)
    else
      var c := coll[id := Merge(coll[id], p)];
      Applied(c, Get(c, id, readFault))
  }

  /** `deleteDocument`: the document reference is always truthy, so the 404
      branch is never taken and a successful delete reports 200 with `{}`,
      whether or not the id was present. */
  function Delete(coll: Coll, id: string, fault: bool): (a: Applied)
    ensures fault ==> a == Applied(coll, Failed)
    ensures !fault ==>
              && a.result == Result(200, map[])
              && a.coll.Keys == coll.Keys - {id}
              && forall other :: other in a.coll ==> a.coll[other] == coll[other]
  {
    if fault then Applied(coll, Failed)
    else Applied(coll - {id}, Result(200, map[]))
  }

  /** A get after a successful delete of the same id finds nothing. */
  lemma DeleteThenGet(coll: Coll, id: string)
    ensures Get(Delete(coll, id, false).coll, id, false) == NotFound
  {
  }

  /** A get right after a successful create returns what the create returned. */
  lemma CreateThenGet(coll: Coll, body: Doc, newId: string, readFault: bool)
    requires newId !in coll
    ensures var a := Create(coll, body, newId, false, readFault);
            Get(a.coll, newId, false) == Result(200, WithId(body, newId))
  {
  }

  /** An update that only re-sets the values a document already holds leaves
      the collection as it was. */
  lemma UpdateWithSameValues(coll: Coll, id: string, p: Patch)
    requires id in coll
    requires forall k :: k in p ==> p[k].Put? && k in coll[id] && p[k].v == coll[id][k]
    ensures Update(coll, id, p, false, false).coll == coll
  {
    var m := Merge(coll[id], p);
    assert m == coll[id];
  }

  /** The two collections as an object whose helpers update them in place. */
  class Store {
    var users: Coll
    var quizzes: Coll

    constructor (users0: Coll, quizzes0: Coll)
      ensures users == users0 && quizzes == quizzes0
    {
      users := users0;
      quizzes := quizzes0;
    }

    function Collection(c: CollName): Coll
      reads this
    {
      if c == Users then users else quizzes
    }

    method SetCollection(c: CollName, m: Coll)
      modifies this
      ensures Collection(c) == m
      ensures Collection(Other(c)) == old(Collection(Other(c)))
    {
      if c == Users {
        users := m;
      } else {
        quizzes := m;
      }
    }

    method GetDocument(c: CollName, id: string, fault: bool) returns (r: Result)
      ensures r == Get(Collection(c), id, fault)
    {
      r := Get(Collection(c), id, fault);
    }

    method CreateDocument(c: CollName, body: Doc, newId: string, addFault: bool, readFault: bool)
      returns (r: Result)
      requires newId !in Collection(c)
      modifies this
      ensures Applied(Collection(c), r) == Create(old(Collection(c)), body, newId, addFault, readFault)
      ensures Collection(Other(c)) == old(Collection(Other(c)))
    {
      if addFault {
        return Failed;
      }
      SetCollection(c, Collection(c)[newId := body]);
      r := GetDocument(c, newId, readFault);
    }

    method UpdateDocument(c: CollName, id: string, p: Patch, updateFault: bool, readFault: bool)
      returns (r: Result)
      modifies this
      ensures Applied(Collection(c), r) == Update(old(Collection(c)), id, p, updateFault, readFault)
      ensures Collection(Other(c)) == old(Collection(Other(c)))
    {
      var coll := Collection(c);
      if updateFault || id !in coll {
        return Failed;
      }
      SetCollection(c, coll[id := Merge(coll[id], p)]);
      r := GetDocument(c, id, readFault);
    }

    method DeleteDocument(c: CollName, id: string, fault: bool) returns (r: Result)
      modifies this
      ensures Applied(Collection(c), r) == Delete(old(Collection(c)), id, fault)
      ensures Collection(Other(c)) == old(Collection(Other(c)))
    {
      if fault {
        return Failed;
      }
      SetCollection(c, Collection(c) - {id});
      r := Result(200, map[]);
    }
  }
}
