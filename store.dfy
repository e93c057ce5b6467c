/** The remote backend as the client's handlers use it: the "documents" and
    "questions" collections, the blob store keyed by path, and the server
    clock that fills in `serverTimestamp()` placeholders. Ids, download URLs
    and server times are supplied by the caller, since the backend makes
    them up. */
module Store {
  import opened Records

  /** `arrayUnion(a)` applied to an array field: `a` is appended unless an
      equal element is already there. */
  function ArrayUnion(s: seq<Answer>, a: Answer): (r: seq<Answer>)
    ensures a in r
    ensures s <= r && |r| <= |s| + 1
    ensures a in s ==> r == s
  {
    if a in s then s else s + [a]
  }

  /** The "questions" collection after `updateDoc(doc(db, "questions", qid),
      { answers: arrayUnion(a) })`: only the record with id `qid` changes, and
      of it only `answers`. */
  function WithAnswer(qs: seq<Entry<QuestionFields>>, qid: string, a: Answer): (r: seq<Entry<QuestionFields>>)
    ensures |r| == |qs|
    ensures forall i :: 0 <= i < |qs| ==> r[i].id == qs[i].id
    ensures forall i :: 0 <= i < |qs| && qs[i].id != qid ==> r[i] == qs[i]
    ensures forall i :: 0 <= i < |qs| && qs[i].id == qid ==>
              r[i].data == qs[i].data.(answers := ArrayUnion(qs[i].data.answers, a))
  {
    if qs == [] then []
    else
      var head := if qs[0].id == qid
                  then Entry(qid, qs[0].data.(answers := ArrayUnion(qs[0].data.answers, a)))
                  else qs[0];
      [head] + WithAnswer(qs[1..], qid, a)
  }

  /** Answering a question that is not in the collection changes nothing. */
  lemma WithAnswerMissing(qs: seq<Entry<QuestionFields>>, qid: string, a: Answer)
    requires qid !in Ids(qs)
    ensures WithAnswer(qs, qid, a) == qs
  {
    var r := WithAnswer(qs, qid, a);
    assert forall i :: 0 <= i < |qs| ==> r[i] == qs[i];
  }

  /** Two answers sent to the same question, one after the other, are both
      kept; when neither was there and they differ, they end up after the
      earlier answers in the order they reached the store. */
  lemma BothAnswersKept(qs: seq<Entry<QuestionFields>>, i: nat, a: Answer, b: Answer)
    requires i < |qs|
    ensures var r := WithAnswer(WithAnswer(qs, qs[i].id, a), qs[i].id, b);
            && a in r[i].data.answers && b in r[i].data.answers
            && qs[i].data.answers <= r[i].data.answers
            && (a !in qs[i].data.answers && b !in qs[i].data.answers && a != b ==>
                  r[i].data.answers == qs[i].data.answers + [a, b])
  {
    var qid := qs[i].id;
    var r1 := WithAnswer(qs, qid, a);
    var s := qs[i].data.answers;
    assert r1[i].id == qid;
    var s1 := r1[i].data.answers;
    assert ArrayUnion(s1, b)[..|s1|] == s1;
    if a !in s && b !in s && a != b {
      assert s1 == s + [a];
      assert b !in s1;
    }
  }

  /** Sending the same answer twice leaves the same collection as sending it
      once. */
  lemma WithAnswerIdempotent(qs: seq<Entry<QuestionFields>>, qid: string, a: Answer)
    ensures WithAnswer(WithAnswer(qs, qid, a), qid, a) == WithAnswer(qs, qid, a)
  {
    var r1 := WithAnswer(qs, qid, a);
    var r2 := WithAnswer(r1, qid, a);
    forall i | 0 <= i < |qs| ensures r2[i] == r1[i] {
      if qs[i].id == qid {
        assert a in r1[i].data.answers;
      }
    }
  }

  /** Every stored document carries a server time no later than `clock`. */
  ghost predicate DocumentsStamped(s: seq<Entry<DocFields>>, clock: nat) {
    forall i :: 0 <= i < |s| ==> s[i].data.timestamp.At? && s[i].data.timestamp.millis <= clock
  }

  /** Every stored question carries a server time no later than `clock`. */
  ghost predicate QuestionsStamped(s: seq<Entry<QuestionFields>>, clock: nat) {
    forall i :: 0 <= i < |s| ==> s[i].data.timestamp.At? && s[i].data.timestamp.millis <= clock
  }

  class RemoteStore {
    var documents: seq<Entry<DocFields>>
    var questions: seq<Entry<QuestionFields>>
    var blobs: map<string, seq<byte>>
    var clock: nat

    /** Ids are unique in each collection, and every stored record has been
        stamped by the server clock, which has not run past `clock`. */
    ghost predicate Valid()
      reads this
    {
      UniqueIds(documents) && UniqueIds(questions)
      && DocumentsStamped(documents, clock) && QuestionsStamped(questions, clock)
    }

    constructor ()
      ensures Valid()
      ensures documents == [] && questions == [] && blobs == map[] && clock == 0
    {
      documents, questions, blobs, clock := [], [], map[], 0;
    }

    /** `uploadBytes(ref(storage, path), content)`: the content is stored at
        `path`, replacing whatever an earlier upload left there. */
    method UploadBytes(path: string, content: seq<byte>)
      requires Valid()
      modifies this
      ensures Valid()
      ensures blobs == old(blobs)[path := content]
      ensures documents == old(documents) && questions == old(questions) && clock == old(clock)
    {
      blobs := blobs[path := content];
    }

    /** `addDoc(collection(db, "documents"), fields)`. The new record gets the
        backend-generated `id`, which no record has yet, and its timestamp
        placeholder is filled in with the server time `now`, which is not
        earlier than any time the server has handed out. */
    method AddDocument(id: string, fields: DocFields, now: nat)
      requires Valid()
      requires id !in Ids(documents)
      requires clock <= now
      modifies this
      ensures Valid()
      ensures documents == old(documents) + [Entry(id, fields.(timestamp := At(now)))]
      ensures forall i :: 0 <= i < |old(documents)| ==> old(documents)[i].data.timestamp.millis <= now
      ensures questions == old(questions) && blobs == old(blobs) && clock == now
    {
      documents := documents + [Entry(id, fields.(timestamp := At(now)))];
      clock := now;
    }

    /** `addDoc(collection(db, "questions"), fields)`, as for documents. */
    method AddQuestion(id: string, fields: QuestionFields, now: nat)
      requires Valid()
      requires id !in Ids(questions)
      requires clock <= now
      modifies this
      ensures Valid()
      ensures questions == old(questions) + [Entry(id, fields.(timestamp := At(now)))]
      ensures forall i :: 0 <= i < |old(questions)| ==> old(questions)[i].data.timestamp.millis <= now
      ensures documents == old(documents) && blobs == old(blobs) && clock == now
    {
      questions := questions + [Entry(id, fields.(timestamp := At(now)))];
      clock := now;
    }

    /** `updateDoc(doc(db, "questions", qid), { answers: arrayUnion(a) })`.
        The update fails, and nothing changes, when no question has id `qid`. */
    method UnionAnswer(qid: string, a: Answer) returns (found: bool)
      requires Valid()
      modifies this
      ensures Valid()
      ensures found <==> qid in Ids(old(questions))
      ensures questions == WithAnswer(old(questions), qid, a)
      ensures !found ==> questions == old(questions)
      ensures documents == old(documents) && blobs == old(blobs) && clock == old(clock)
    {
      found := qid in Ids(questions);
      if !found {
        WithAnswerMissing(questions, qid, a);
      }
      questions := WithAnswer(questions, qid, a);
    }
  }
}
