/** The document record shared by both iterations of the client's document-list
    cache, the outcomes the network can hand back, the requests the cache sends,
    and the pure list transforms the cache applies: `find`, the renaming `map`
    and the deleting `filter`. */
module Documents {

  datatype Option<+T> = None | Some(value: T)

  type UserId = string

  /** One entry of the cached list: `{id, name, url, uploadedAt?, text?}`. */
  datatype DocumentItem = DocumentItem(
    id: string,
    name: string,
    url: string,
    uploadedAt: Option<string>,
    text: Option<string>)

  /** What a `GET /documents` call ends in: the call (or decoding its body)
      throws, or a response arrives whose decoded body is a list of documents,
      with the `ok` flag cleared or set. */
  datatype ListOutcome =
    | ListThrows
    | ListNotOk(data: seq<DocumentItem>)
    | ListOk(data: seq<DocumentItem>)

  /** What a `PATCH` or `DELETE` call ends in; its body is never read. */
  datatype Outcome = Throws | NotOk | Ok

  /** A request the cache sends to the document-list server. */
  datatype Request =
    | GetDocuments(userId: Option<UserId>)
    | PatchDocument(id: string, name: string, userId: Option<UserId>)
    | DeleteDocument(id: string, userId: Option<UserId>)

  /** `docs.find(d => d.id === id)`: the first item carrying `id`, if any. */
  function FindById(docs: seq<DocumentItem>, id: string): Option<DocumentItem>
  {
    if |docs| == 0 then None
    else if docs[0].id == id then Some(docs[0])
    else FindById(docs[1..], id)
  }

  /** `find` comes back empty exactly when no item has the id, and otherwise
      with the first item that has it. */
  lemma {:induction false} FindByIdSpec(docs: seq<DocumentItem>, id: string)
    ensures FindById(docs, id).None? <==> forall i :: 0 <= i < |docs| ==> docs[i].id != id
    ensures forall i :: 0 <= i < |docs| && docs[i].id == id && (forall j :: 0 <= j < i ==> docs[j].id != id)
                        ==> FindById(docs, id) == Some(docs[i])
  {
    if |docs| > 0 && docs[0].id != id {
      FindByIdSpec(docs[1..], id);
      assert forall i :: 1 <= i < |docs| ==> docs[i] == docs[1..][i - 1];
    }
  }

  /** The optimistic rename, `docs.map(d => d.id === id ? {...d, name} : d)`. */
  function RenameAll(docs: seq<DocumentItem>, id: string, newName: string): seq<DocumentItem>
  {
    if |docs| == 0 then []
    else
      var head := if docs[0].id == id then docs[0].(name := newName) else docs[0];
      [head] + RenameAll(docs[1..], id, newName)
  }

  /** The rename keeps length and order; every item with the id gets the new
      name and keeps its other fields; every other item is left as it is. */
  lemma {:induction false} RenameAllSpec(docs: seq<DocumentItem>, id: string, newName: string)
    ensures |RenameAll(docs, id, newName)| == |docs|
    ensures forall i :: 0 <= i < |docs| && docs[i].id == id ==> RenameAll(docs, id, newName)[i] == docs[i].(name := newName)
    ensures forall i :: 0 <= i < |docs| && docs[i].id != id ==> RenameAll(docs, id, newName)[i] == docs[i]
  {
    if |docs| > 0 {
      RenameAllSpec(docs[1..], id, newName);
    }
  }

  /** `a` is `b` with some of its elements dropped, the rest in their order. */
  ghost predicate IsSubsequence(a: seq<DocumentItem>, b: seq<DocumentItem>)
    decreases |b|
  {
    |a| == 0 ||
    (|b| > 0 && ((a[0] == b[0] && IsSubsequence(a[1..], b[1..])) || IsSubsequence(a, b[1..])))
  }

  /** The optimistic delete, `docs.filter(d => d.id !== id)`. */
  function RemoveAll(docs: seq<DocumentItem>, id: string): seq<DocumentItem>
  {
    if |docs| == 0 then []
    else if docs[0].id == id then RemoveAll(docs[1..], id)
    else [docs[0]] + RemoveAll(docs[1..], id)
  }

  /** The delete leaves no item with the id, keeps the others in their order
      (a subsequence of the input), and keeps each of them as often as it was. */
  lemma {:induction false} RemoveAllSpec(docs: seq<DocumentItem>, id: string)
    ensures forall i :: 0 <= i < |RemoveAll(docs, id)| ==> RemoveAll(docs, id)[i].id != id
    ensures IsSubsequence(RemoveAll(docs, id), docs)
    ensures forall d: DocumentItem :: d.id != id ==> multiset(RemoveAll(docs, id))[d] == multiset(docs)[d]
  {
    if |docs| > 0 {
      var rest := RemoveAll(docs[1..], id);
      RemoveAllSpec(docs[1..], id);
      assert docs == [docs[0]] + docs[1..];
      if docs[0].id != id {
        assert ([docs[0]] + rest)[1..] == rest;
      }
    }
  }

  /** Deleting an id that no item carries leaves the list as it is. */
  lemma {:induction false} RemoveAllAbsent(docs: seq<DocumentItem>, id: string)
    requires FindById(docs, id).None?
    ensures RemoveAll(docs, id) == docs
  {
    if |docs| > 0 {
      RemoveAllAbsent(docs[1..], id);
    }
  }

  /** The delete shortens the list exactly when some item carries the id. */
  lemma {:induction false} RemoveAllShrinks(docs: seq<DocumentItem>, id: string)
    ensures |RemoveAll(docs, id)| <= |docs|
    ensures FindById(docs, id).Some? <==> |RemoveAll(docs, id)| < |docs|
  {
    if |docs| > 0 {
      RemoveAllShrinks(docs[1..], id);
    }
  }

  /** Renaming an id that no item carries leaves the list as it is. */
  lemma {:induction false} RenameAllAbsent(docs: seq<DocumentItem>, id: string, newName: string)
    requires FindById(docs, id).None?
    ensures RenameAll(docs, id, newName) == docs
  {
    if |docs| > 0 {
      RenameAllAbsent(docs[1..], id, newName);
    }
  }

  /** After the rename, looking the id up finds the same first item, renamed. */
  lemma {:induction false} FindAfterRename(docs: seq<DocumentItem>, id: string, newName: string)
    ensures FindById(RenameAll(docs, id, newName), id)
         == match FindById(docs, id)
            case None => None
            case Some(d) => Some(d.(name := newName))
  {
    if |docs| > 0 && docs[0].id != id {
      FindAfterRename(docs[1..], id, newName);
      assert RenameAll(docs, id, newName)[1..] == RenameAll(docs[1..], id, newName);
    }
  }

  /** The rename keeps every id, so deleting afterwards removes the same items.
      When no item has the id, `remove` returns early instead of filtering;
      `RemoveAllAbsent` shows that the early return leaves what the filter would. */
  lemma {:induction false} RemoveAfterRename(docs: seq<DocumentItem>, id: string, newName: string)
    ensures RemoveAll(RenameAll(docs, id, newName), id) == RemoveAll(docs, id)
  {
    if |docs| > 0 {
      RemoveAfterRename(docs[1..], id, newName);
      assert RenameAll(docs, id, newName)[1..] == RenameAll(docs[1..], id, newName);
    }
  }

  /** Renaming one id and deleting another (or the same) commute. When no item
      has the deleted id, `remove` returns early instead of filtering;
      `RemoveAllAbsent` shows that the early return leaves what the filter would. */
  lemma {:induction false} RenameRemoveCommute(docs: seq<DocumentItem>, id: string, newName: string, other: string)
    ensures RenameAll(RemoveAll(docs, other), id, newName) == RemoveAll(RenameAll(docs, id, newName), other)
  {
    if |docs| > 0 {
      RenameRemoveCommute(docs[1..], id, newName, other);
      assert RenameAll(docs, id, newName)[1..] == RenameAll(docs[1..], id, newName);
      if docs[0].id != other {
        assert RemoveAll(docs, other)[1..] == RemoveAll(docs[1..], other);
      }
    }
  }

  /** Renaming twice to the same name is renaming once. */
  lemma {:induction false} RenameAllIdempotent(docs: seq<DocumentItem>, id: string, newName: string)
    ensures RenameAll(RenameAll(docs, id, newName), id, newName) == RenameAll(docs, id, newName)
  {
    if |docs| > 0 {
      RenameAllIdempotent(docs[1..], id, newName);
      assert RenameAll(docs, id, newName)[1..] == RenameAll(docs[1..], id, newName);
    }
  }

  /** After the delete no item has the id, so a second `remove` of it finds
      nothing and returns early; deleting twice is deleting once. */
  lemma RemoveAllIdempotent(docs: seq<DocumentItem>, id: string)
    ensures FindById(RemoveAll(docs, id), id).None?
    ensures RemoveAll(RemoveAll(docs, id), id) == RemoveAll(docs, id)
  {
    RemoveAllSpec(docs, id);
    FindByIdSpec(RemoveAll(docs, id), id);
    RemoveAllAbsent(RemoveAll(docs, id), id);
  }
}
