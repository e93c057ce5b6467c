/** The top-level component: the signed-in user and the two held lists, which
    each load replaces with what the backend delivered. */
module App {
  import opened Text
  import opened Records

  /** `snapshot.docs.map(doc => ({ id: doc.id, ...doc.data() }))` for the
      "documents" collection: one held document per delivered record, in
      delivered order, carrying that record's id and fields. */
  function DocumentsOf(snapshot: seq<Entry<DocFields>>): (docs: seq<Document>)
    ensures |docs| == |snapshot|
    ensures forall i :: 0 <= i < |docs| ==> EntryOfDocument(docs[i]) == snapshot[i]
  {
    if snapshot == [] then [] else [DocumentOf(snapshot[0])] + DocumentsOf(snapshot[1..])
  }

  /** The same for the "questions" collection. */
  function QuestionsOf(snapshot: seq<Entry<QuestionFields>>): (qs: seq<Question>)
    ensures |qs| == |snapshot|
    ensures forall i :: 0 <= i < |qs| ==> EntryOfQuestion(qs[i]) == snapshot[i]
  {
    if snapshot == [] then [] else [QuestionOf(snapshot[0])] + QuestionsOf(snapshot[1..])
  }

  /** Spreading loses nothing: the delivered records can be read back from
      the held list. */
  lemma {:induction false} DocumentsOfLossless(snapshot: seq<Entry<DocFields>>)
    ensures Unspread(DocumentsOf(snapshot)) == snapshot
  {
    if snapshot != [] {
      DocumentsOfLossless(snapshot[1..]);
      assert DocumentsOf(snapshot)[1..] == DocumentsOf(snapshot[1..]);
    }
  }

  function Unspread(docs: seq<Document>): seq<Entry<DocFields>> {
    if docs == [] then [] else [EntryOfDocument(docs[0])] + Unspread(docs[1..])
  }

  /** The header label: `user.displayName.split(" ")[0]` when signed in. */
  function HeaderName(user: Option<User>): (shown: Option<string>)
    ensures shown.Some? <==> user.Some?
    ensures user.Some? ==> shown.value <= user.value.displayName && ' ' !in shown.value
    ensures user.Some? ==> |shown.value| == |user.value.displayName|
                           || user.value.displayName[|shown.value|] == ' '
  {
    if user.Some? then Some(FirstWord(user.value.displayName)) else None
  }

  class AppState {
    var user: Option<User>
    var docs: seq<Document>
    var questions: seq<Question>

    constructor ()
      ensures user == None && docs == [] && questions == []
    {
      user, docs, questions := None, [], [];
    }

    /** One firing of the session listener: the held user is replaced, and a
        load of both lists is started when someone is signed in. Signing out
        keeps the held lists as they were. */
    method OnAuthStateChanged(u: Option<User>) returns (startLoads: bool)
      modifies this
      ensures user == u && startLoads == u.Some?
      ensures docs == old(docs) && questions == old(questions)
    {
      user := u;
      startLoads := u.Some?;
    }

    /** `setDocs(...)` when a `getDocs` query completes: the held list becomes
        exactly the delivered result, whatever it held before. */
    method ReceiveDocuments(snapshot: seq<Entry<DocFields>>)
      modifies this
      ensures docs == DocumentsOf(snapshot)
      ensures user == old(user) && questions == old(questions)
    {
      docs := DocumentsOf(snapshot);
    }

    /** `setQuestions(...)` when the live query delivers a snapshot: the held
        list becomes exactly that snapshot, whatever it held before. */
    method ReceiveQuestions(snapshot: seq<Entry<QuestionFields>>)
      modifies this
      ensures questions == QuestionsOf(snapshot)
      ensures user == old(user) && docs == old(docs)
    {
      questions := QuestionsOf(snapshot);
    }
  }
}
