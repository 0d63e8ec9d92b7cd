/** The current document-list cache: a provider holding `documents` and
    `loading`, with `refresh`, `addLocal`, an optimistic `rename` and an
    optimistic `remove` that roll back to a snapshot when their request throws.

    Every network call is replaced by its outcome, passed in; every request is
    handed back, in the order it is sent. A `refresh` that `addLocal` or
    `rename` starts without awaiting it runs to completion right after them. */
module DocumentsContext {
  import opened Documents

  /** The list once `refresh` has run: the fetched body, whether the response
      was ok or not, when a user is signed in and the call did not throw. */
  function Refreshed(docs: seq<DocumentItem>, user: Option<UserId>, outcome: ListOutcome): seq<DocumentItem>
  {
    if user.Some? && !outcome.ListThrows? then outcome.data else docs
  }

  /** The values `refresh` hands to `setDocuments`. */
  function RefreshDocumentWrites(user: Option<UserId>, outcome: ListOutcome): seq<seq<DocumentItem>>
  {
    if user.Some? && !outcome.ListThrows? then [outcome.data] else []
  }

  /** The values `refresh` hands to `setLoading`: on at the start, off at the end. */
  function RefreshLoadingWrites(user: Option<UserId>): seq<bool>
  {
    if user.Some? then [true, false] else []
  }

  /** The requests `refresh` sends: one `GET /documents?userId=…` when signed in. */
  function RefreshRequests(user: Option<UserId>): seq<Request>
  {
    if user.Some? then [GetDocuments(user)] else []
  }

  class DocumentsProvider {
    var documents: seq<DocumentItem>
    var loading: bool
    /** Every value handed to `setDocuments`, oldest first. */
    ghost var documentsWrites: seq<seq<DocumentItem>>
    /** Every value handed to `setLoading`, oldest first. */
    ghost var loadingWrites: seq<bool>

    constructor ()
      ensures documents == [] && !loading
      ensures documentsWrites == [] && loadingWrites == []
    {
      documents := [];
      loading := false;
      documentsWrites := [];
      loadingWrites := [];
    }

    method SetDocuments(value: seq<DocumentItem>)
      modifies this`documents, this`documentsWrites
      ensures documents == value
      ensures documentsWrites == old(documentsWrites) + [value]
    {
      documents := value;
      documentsWrites := documentsWrites + [value];
    }

    method SetLoading(value: bool)
      modifies this`loading, this`loadingWrites
      ensures loading == value
      ensures loadingWrites == old(loadingWrites) + [value]
    {
      loading := value;
      loadingWrites := loadingWrites + [value];
    }

    /** `refresh`: with no user, nothing happens; otherwise `loading` goes on,
        the fetched list replaces `documents` unless the call throws, and
        `loading` goes off in every case. */
    method Refresh(user: Option<UserId>, outcome: ListOutcome) returns (requests: seq<Request>)
      modifies this
      ensures requests == RefreshRequests(user)
      ensures documents == Refreshed(old(documents), user, outcome)
      ensures documentsWrites == old(documentsWrites) + RefreshDocumentWrites(user, outcome)
      ensures loading == (if user.Some? then false else old(loading))
      ensures loadingWrites == old(loadingWrites) + RefreshLoadingWrites(user)
    {
      if user.None? {
        return [];
      }
      SetLoading(true);
      requests := [GetDocuments(user)];
      match outcome {
        case ListThrows =>
        case ListNotOk(data) =>
          // only a warning is logged; the body is stored all the same
          SetDocuments(data);
        case ListOk(data) =>
          SetDocuments(data);
      }
      SetLoading(false);
    }

    /** `addLocal`: put `doc` in front of the list, then `refresh`. */
    method AddLocal(doc: DocumentItem, user: Option<UserId>, refreshOutcome: ListOutcome)
      returns (requests: seq<Request>)
      modifies this
      ensures requests == RefreshRequests(user)
      ensures documentsWrites
           == old(documentsWrites) + [[doc] + old(documents)] + RefreshDocumentWrites(user, refreshOutcome)
      ensures documents == Refreshed([doc] + old(documents), user, refreshOutcome)
      ensures loading == (if user.Some? then false else old(loading))
      ensures loadingWrites == old(loadingWrites) + RefreshLoadingWrites(user)
    {
      SetDocuments([doc] + documents);
      requests := Refresh(user, refreshOutcome);
    }

    /** `rename`: snapshot the list, rename every item with `id` at once, send
        the `PATCH`; only a throwing request restores the snapshot (a non-ok
        response keeps the optimistic list); `refresh` follows in every case. */
    method Rename(id: string, newName: string, user: Option<UserId>, outcome: Outcome, refreshOutcome: ListOutcome)
      returns (requests: seq<Request>)
      modifies this
      ensures requests == [PatchDocument(id, newName, user)] + RefreshRequests(user)
      ensures documentsWrites
           == old(documentsWrites) + [RenameAll(old(documents), id, newName)]
              + (if outcome.Throws? then [old(documents)] else [])
              + RefreshDocumentWrites(user, refreshOutcome)
      ensures documents
           == Refreshed(if outcome.Throws? then old(documents) else RenameAll(old(documents), id, newName),
                        user, refreshOutcome)
      ensures loading == (if user.Some? then false else old(loading))
      ensures loadingWrites == old(loadingWrites) + RefreshLoadingWrites(user)
    {
      var previous := documents;
      SetDocuments(RenameAll(documents, id, newName));
      requests := [PatchDocument(id, newName, user)];
      if outcome.Throws? {
        SetDocuments(previous);
      }
      var refreshRequests := Refresh(user, refreshOutcome);
      requests := requests + refreshRequests;
    }

    /** `remove`: when no item has `id`, nothing happens and nothing is sent;
        otherwise snapshot the list, drop every item with `id` at once, send the
        `DELETE`, and restore the snapshot only if the request throws. It never
        refreshes, so `loading` is outside its frame. */
    method Remove(id: string, user: Option<UserId>, outcome: Outcome) returns (requests: seq<Request>)
      modifies this`documents, this`documentsWrites
      ensures FindById(old(documents), id).None? ==>
                requests == [] && documents == old(documents) && documentsWrites == old(documentsWrites)
      ensures FindById(old(documents), id).Some? ==>
                && requests == [DeleteDocument(id, user)]
                && documentsWrites
                   == old(documentsWrites) + [RemoveAll(old(documents), id)]
                      + (if outcome.Throws? then [old(documents)] else [])
                && documents == (if outcome.Throws? then old(documents) else RemoveAll(old(documents), id))
    {
      var doc := FindById(documents, id);
      if doc.None? {
        return [];
      }
      var previous := documents;
      SetDocuments(RemoveAll(documents, id));
      requests := [DeleteDocument(id, user)];
      if outcome.Throws? {
        SetDocuments(previous);
      }
    }
  }
}
