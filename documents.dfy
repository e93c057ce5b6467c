/** The documents tab: the search filter over the held list and the upload
    handler. */
module Documents {
  import opened Text
  import opened Records
  import opened Store

  // ---------------------------------------------------------------- search

  /** The search test: the lower-cased title or the lower-cased subject
      includes the lower-cased term. The empty term matches every document,
      and a term longer than both the title and the subject matches none. */
  predicate Matches(d: Document, term: string): (m: bool)
    ensures term == "" ==> m
    ensures m ==> |term| <= |d.title| || |term| <= |d.subject|
  {
    Includes(ToLower(d.title), ToLower(term)) || Includes(ToLower(d.subject), ToLower(term))
  }

  /** `docs.filter(d => ...)`: the held documents that match the term, in
      their held order. */
  function Filter(docs: seq<Document>, term: string): (r: seq<Document>)
    ensures |r| <= |docs|
    ensures forall i :: 0 <= i < |r| ==> r[i] in docs && Matches(r[i], term)
  {
    if docs == [] then []
    else (if Matches(docs[0], term) then [docs[0]] else []) + Filter(docs[1..], term)
  }

  /** `r` can be had from `s` by deleting elements: the order of what is
      kept is preserved and nothing is repeated or added. */
  ghost predicate IsSubsequence<T>(r: seq<T>, s: seq<T>)
    decreases |s|
  {
    if r == [] then true
    else if s == [] then false
    else (r[0] == s[0] && IsSubsequence(r[1..], s[1..])) || IsSubsequence(r, s[1..])
  }

  /** A document is in the filtered list exactly when it is held and matches. */
  lemma {:induction false} FilterMembers(docs: seq<Document>, term: string, d: Document)
    ensures d in Filter(docs, term) <==> d in docs && Matches(d, term)
  {
    if docs != [] {
      FilterMembers(docs[1..], term, d);
      assert docs == [docs[0]] + docs[1..];
    }
  }

  /** The filtered list keeps each matching document as often as the held
      list has it, and no other document. */
  lemma {:induction false} FilterMultiplicity(docs: seq<Document>, term: string, d: Document)
    ensures multiset(Filter(docs, term))[d] == if Matches(d, term) then multiset(docs)[d] else 0
  {
    if docs != [] {
      var tail := docs[1..];
      FilterMultiplicity(tail, term, d);
      assert docs == [docs[0]] + tail;
      assert multiset(docs) == multiset([docs[0]]) + multiset(tail);
      var head := if Matches(docs[0], term) then [docs[0]] else [];
      assert Filter(docs, term) == head + Filter(tail, term);
      assert multiset(Filter(docs, term)) == multiset(head) + multiset(Filter(tail, term));
    }
  }

  /** The filtered list is a subsequence of the held list. */
  lemma {:induction false} FilterIsSubsequence(docs: seq<Document>, term: string)
    ensures IsSubsequence(Filter(docs, term), docs)
  {
    if docs != [] {
      FilterIsSubsequence(docs[1..], term);
      var r := Filter(docs, term);
      if Matches(docs[0], term) {
        assert r[1..] == Filter(docs[1..], term);
      } else {
        assert r == Filter(docs[1..], term);
        SubsequenceOfTail(r, docs);
      }
    }
  }

  lemma SubsequenceOfTail<T>(r: seq<T>, s: seq<T>)
    requires s != [] && IsSubsequence(r, s[1..])
    ensures IsSubsequence(r, s)
  {
  }

  /** Filtering keeps every document the term matches, so it keeps the whole
      list when every held document matches. */
  lemma {:induction false} FilterKeepsAll(docs: seq<Document>, term: string)
    requires forall i :: 0 <= i < |docs| ==> Matches(docs[i], term)
    ensures Filter(docs, term) == docs
  {
    if docs != [] {
      FilterKeepsAll(docs[1..], term);
      assert docs == [docs[0]] + docs[1..];
    }
  }

  /** An empty search box shows every held document. */
  lemma FilterEmptyTerm(docs: seq<Document>)
    ensures Filter(docs, "") == docs
  {
    forall i | 0 <= i < |docs| ensures Matches(docs[i], "") {
      assert ToLower("") == "";
      IncludesEmpty(ToLower(docs[i].title));
    }
    FilterKeepsAll(docs, "");
  }

  /** `FilterMembers` for every document at once. */
  lemma FilterSelects(docs: seq<Document>, term: string)
    ensures forall d :: d in Filter(docs, term) <==> d in docs && Matches(d, term)
  {
    forall d {
      FilterMembers(docs, term, d);
    }
  }

  /** Filtering the filtered list again with the same term changes nothing. */
  lemma FilterIdempotent(docs: seq<Document>, term: string)
    ensures Filter(Filter(docs, term), term) == Filter(docs, term)
  {
    FilterKeepsAll(Filter(docs, term), term);
  }

  /** The search ignores the case of the term. */
  lemma {:induction false} FilterIgnoresCase(docs: seq<Document>, term: string)
    ensures Filter(docs, ToLower(term)) == Filter(docs, term)
  {
    ToLowerIdempotent(term);
    if docs != [] {
      FilterIgnoresCase(docs[1..], term);
    }
  }

  // ---------------------------------------------------------------- upload

  datatype UploadOutcome =
    | MissingField                      // the "fill in every field" alert
    | Uploaded(path: string, id: string) // the success alert; a reload is started

  /** The record `handleUpload` writes; the server fills in the timestamp. */
  function NewDocument(title: string, subject: string, url: string, file: File, user: User): (r: DocFields)
    ensures r.title == title && r.subject == subject && r.url == url && r.fileName == file.name
    ensures r.uploadedBy == user.displayName && r.userId == user.uid
    ensures r.timestamp == ServerTimestamp
  {
    DocFields(title, subject, url, file.name, user.displayName, user.uid, ServerTimestamp)
  }

  /** The upload form: the picked file, the two text fields and the search
      box. */
  class DocumentsPanel {
    var file: Option<File>
    var title: string
    var subject: string
    var search: string

    constructor ()
      ensures file == None && title == "" && subject == "" && search == ""
    {
      file, title, subject, search := None, "", "", "";
    }

    /** `filtered`: the held documents the tab lists under the search box.
        A document is listed exactly when it is held and matches the box's
        text, and the listed ones keep their held order. */
    function Shown(docs: seq<Document>): (r: seq<Document>)
      reads this
      ensures forall d :: d in r <==> d in docs && Matches(d, search)
      ensures IsSubsequence(r, docs)
    {
      FilterSelects(docs, search);
      FilterIsSubsequence(docs, search);
      Filter(docs, search)
    }

    /** `handleUpload`. With no file, or an empty title or subject, it alerts
        and nothing else happens; a title of spaces is not empty. Otherwise
        the file goes to `docs/<now>_<name>` in the blob store, exactly one
        record joins "documents" (`url` is what `getDownloadURL` resolved,
        `newId` the id the backend generated, `serverTime` the server's
        clock), the form is cleared, and a reload of the list is started. */
    method HandleUpload(store: RemoteStore, user: User, now: nat, url: string, newId: string, serverTime: nat)
      returns (outcome: UploadOutcome)
      requires store.Valid()
      requires newId !in Ids(store.documents)
      requires store.clock <= serverTime
      modifies this, store
      ensures store.Valid()
      ensures outcome.MissingField? <==> old(file).None? || old(title) == "" || old(subject) == ""
      ensures outcome.MissingField? ==>
                unchanged(this) && unchanged(store)
      ensures outcome.Uploaded? ==>
                var f := old(file).value;
                && outcome == Uploaded(DocumentPath(now, f.name), newId)
                && store.blobs == old(store.blobs)[DocumentPath(now, f.name) := f.content]
                && store.documents == old(store.documents) +
                     [Entry(newId, DocFields(old(title), old(subject), url, f.name,
                                             user.displayName, user.uid, At(serverTime)))]
                && store.questions == old(store.questions) && store.clock == serverTime
                && (forall i :: 0 <= i < |old(store.documents)| ==>
                      old(store.documents)[i].data.timestamp.millis <= serverTime)
                && file == None && title == "" && subject == "" && search == old(search)
    {
      if file.None? || title == "" || subject == "" {
        return MissingField;
      }
      var f := file.value;
      var path := DocumentPath(now, f.name);
      store.UploadBytes(path, f.content);
      store.AddDocument(newId, NewDocument(title, subject, url, f, user), serverTime);
      title, subject, file := "", "", None;
      outcome := Uploaded(path, newId);
    }
  }
}
