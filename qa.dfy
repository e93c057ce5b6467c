/** The questions tab: asking a question and answering one. */
module QA {
  import opened Text
  import opened Records
  import opened Store

  datatype AskOutcome =
    | BlankQuestion   // the trimmed text was empty: the handler returned at once
    | Asked(id: string)

  datatype AnswerOutcome =
    | BlankAnswer     // the trimmed text was empty: the handler returned at once
    | Answered
    | NoSuchQuestion  // `updateDoc` rejected: no question has that id

  /** `!s.trim()`: the text is empty once trimmed, that is, it is all white
      space. */
  function IsBlank(s: string): (blank: bool)
    ensures blank <==> AllSpace(s)
  {
    Trim(s) == ""
  }

  /** The record `handleAsk` writes; the server fills in the timestamp. */
  function NewQuestion(text: string, imageUrl: string, user: User): (r: QuestionFields)
    ensures r.question == text && r.imageUrl == imageUrl && r.answers == []
    ensures r.askedBy == user.displayName && r.userId == user.uid
    ensures r.timestamp == ServerTimestamp
  {
    QuestionFields(text, imageUrl, [], user.displayName, user.uid, ServerTimestamp)
  }

  /** The answer entry `handleAnswer` unions in, stamped with the client's
      clock `now` as `new Date()` does. */
  function NewAnswer(text: string, user: User, now: nat): (a: Answer)
    ensures a.text == text && a.answeredBy == user.displayName
    ensures a.timestamp == At(now)
  {
    Answer(text, user.displayName, At(now))
  }

  /** The question form, the picked image, the reply box and the question
      whose reply box is open. */
  class QAPanel {
    var question: string
    var image: Option<File>
    var answer: string
    var replyTo: Option<string>

    constructor ()
      ensures question == "" && image == None && answer == "" && replyTo == None
    {
      question, image, answer, replyTo := "", None, "", None;
    }

    /** `handleAsk`. A question that is all white space changes nothing.
        Otherwise a picked image goes to `qa/<now>_<name>` and its URL `url`
        is attached (the empty string when no image is picked), exactly one
        record with the untrimmed text and no answers joins "questions", and
        the text and image fields are cleared. */
    method HandleAsk(store: RemoteStore, user: User, now: nat, url: string, newId: string, serverTime: nat)
      returns (outcome: AskOutcome)
      requires store.Valid()
      requires newId !in Ids(store.questions)
      requires store.clock <= serverTime
      modifies this, store
      ensures store.Valid()
      ensures outcome.BlankQuestion? <==> AllSpace(old(question))
      ensures outcome.BlankQuestion? ==> unchanged(this) && unchanged(store)
      ensures outcome.Asked? ==>
                && outcome == Asked(newId)
                && store.blobs == (if old(image).Some?
                                   then old(store.blobs)[ImagePath(now, old(image).value.name) := old(image).value.content]
                                   else old(store.blobs))
      ensures outcome.Asked? ==>
                var imageUrl := if old(image).Some? then url else "";
                store.questions == old(store.questions) +
                  [Entry(newId, QuestionFields(old(question), imageUrl, [], user.displayName, user.uid, At(serverTime)))]
      ensures outcome.Asked? ==>
                && store.documents == old(store.documents) && store.clock == serverTime
                && QuestionsStamped(old(store.questions), serverTime)
      ensures outcome.Asked? ==>
                question == "" && image == None && answer == old(answer) && replyTo == old(replyTo)
    {
      if IsBlank(question) {
        return BlankQuestion;
      }
      assert QuestionsStamped(store.questions, serverTime);
      var imageUrl := "";
      if image.Some? {
        store.UploadBytes(ImagePath(now, image.value.name), image.value.content);
        imageUrl := url;
      }
      var fields := NewQuestion(question, imageUrl, user);
      assert fields.(timestamp := At(serverTime))
          == QuestionFields(question, imageUrl, [], user.displayName, user.uid, At(serverTime));
      store.AddQuestion(newId, fields, serverTime);
      assert store.clock == serverTime;
      question, image := "", None;
      outcome := Asked(newId);
    }

    /** `handleAnswer(qid)`. An answer that is all white space changes
        nothing. Otherwise the entry with the untrimmed text, the user's
        display name and the client time `now` is unioned into the answers
        of question `qid` and nothing else in the store changes; the reply
        box is then cleared and closed. When no question has id `qid` the
        update is rejected and the reply box keeps its text. */
    method HandleAnswer(store: RemoteStore, user: User, qid: string, now: nat)
      returns (outcome: AnswerOutcome)
      requires store.Valid()
      modifies this, store
      ensures store.Valid()
      ensures outcome.BlankAnswer? <==> AllSpace(old(answer))
      ensures outcome.NoSuchQuestion? <==> !AllSpace(old(answer)) && qid !in Ids(old(store.questions))
      ensures !outcome.Answered? ==>
                && unchanged(this)
                && store.questions == old(store.questions) && store.documents == old(store.documents)
                && store.blobs == old(store.blobs) && store.clock == old(store.clock)
      ensures outcome.Answered? ==>
                && store.questions == WithAnswer(old(store.questions), qid, Answer(old(answer), user.displayName, At(now)))
                && store.documents == old(store.documents) && store.blobs == old(store.blobs)
                && store.clock == old(store.clock)
                && answer == "" && replyTo == None && question == old(question) && image == old(image)
    {
      if IsBlank(answer) {
        return BlankAnswer;
      }
      var found := store.UnionAnswer(qid, NewAnswer(answer, user, now));
      if !found {
        return NoSuchQuestion;
      }
      answer, replyTo := "", None;
      outcome := Answered;
    }
  }
}
