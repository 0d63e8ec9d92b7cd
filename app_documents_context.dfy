/** The older document-list cache: a provider holding only `documents`, filled
    by `fetchDocuments` with the server's list reversed in place (newest first)
    and extended by `addDocument`, which prepends without telling the server. */
module AppDocumentsContext {
  import opened Documents

  /** The list read back to front. */
  function Reversed(s: seq<DocumentItem>): (r: seq<DocumentItem>)
    ensures |r| == |s|
    ensures forall i :: 0 <= i < |s| ==> r[i] == s[|s| - 1 - i]
  {
    if |s| == 0 then [] else [s[|s| - 1]] + Reversed(s[..|s| - 1])
  }

  /** `Array.prototype.reverse`: swap the two ends and move inwards. */
  method ReverseInPlace(a: array<DocumentItem>)
    modifies a
    ensures a[..] == Reversed(old(a[..]))
  {
    var lo, hi := 0, a.Length - 1;
    while lo < hi
      invariant 0 <= lo <= hi + 1 && hi == a.Length - 1 - lo
      invariant forall k :: 0 <= k < lo ==> a[k] == old(a[a.Length - 1 - k]) && a[a.Length - 1 - k] == old(a[k])
      invariant forall k :: lo <= k <= hi ==> a[k] == old(a[k])
    {
      a[lo], a[hi] := a[hi], a[lo];
      lo, hi := lo + 1, hi - 1;
    }
    ghost var before := old(a[..]);
    forall k | 0 <= k < a.Length
      ensures a[..][k] == Reversed(before)[k]
    {
      if lo <= k <= hi {
        assert k == a.Length - 1 - k;
      }
    }
  }

  /** Reversing twice gives the server's order back. */
  lemma ReversedTwice(s: seq<DocumentItem>)
    ensures Reversed(Reversed(s)) == s
  {
  }

  /** A server that appends each new document at the end of its list hands
      back, once reversed, the cached list with that document prepended: the
      effect `addDocument` has locally. */
  lemma {:induction false} FetchAfterAppend(data: seq<DocumentItem>, doc: DocumentItem)
    ensures Reversed(data + [doc]) == [doc] + Reversed(data)
  {
    assert (data + [doc])[..|data|] == data;
  }

  class DocumentsProvider {
    var documents: seq<DocumentItem>

    constructor ()
      ensures documents == []
    {
      documents := [];
    }

    /** `fetchDocuments`: `GET /documents` with no user; any decoded body,
        ok or not, is reversed and stored; a throw leaves the list alone. */
    method FetchDocuments(outcome: ListOutcome) returns (requests: seq<Request>)
      modifies this
      ensures requests == [GetDocuments(None)]
      ensures documents == if outcome.ListThrows? then old(documents) else Reversed(outcome.data)
    {
      requests := [GetDocuments(None)];
      if !outcome.ListThrows? {
        var body := outcome.data;
        var data := new DocumentItem[|body|](i requires 0 <= i < |body| => body[i]);
        assert data[..] == body;
        ReverseInPlace(data);
        documents := data[..];
      }
    }

    /** `addDocument`: prepend `doc`; no request is sent. */
    method AddDocument(doc: DocumentItem) returns (requests: seq<Request>)
      modifies this
      ensures documents == [doc] + old(documents)
      ensures requests == []
    {
      documents := [doc] + documents;
      requests := [];
    }
  }
}
