/** A client of the handlers' contracts: one user asks, another answers and
    then asks a follow-up, and the live query delivers the questions
    collection after each write. */
module Scenario {
  import opened Text
  import opened Records
  import opened Store
  import opened App
  import opened QA

  lemma FirstAnswer(e: Entry<QuestionFields>, a: Answer)
    requires e.data.answers == []
    ensures WithAnswer([e], e.id, a) == [Entry(e.id, e.data.(answers := [a]))]
  {
    assert ArrayUnion([], a) == [a];
  }

  method AskThenAnswer(asker: User, responder: User, text: string, replyText: string,
                       qid: string, askedAt: nat, answeredAt: nat, serverTime: nat,
                       followUp: string, qid2: string, askedAgainAt: nat, serverTime2: nat)
    requires !AllSpace(text) && !AllSpace(replyText) && !AllSpace(followUp)
    requires qid2 != qid && serverTime <= serverTime2
  {
    var store := new RemoteStore();
    var app := new AppState();
    var panel := new QAPanel();
    var startLoads := app.OnAuthStateChanged(Some(asker));
    assert startLoads;

    panel.question := text;
    var outcome := panel.HandleAsk(store, asker, askedAt, "", qid, serverTime);
    assert outcome == Asked(qid);
    var q := QuestionFields(text, "", [], asker.displayName, asker.uid, At(serverTime));
    assert store.questions == [Entry(qid, q)];
    app.ReceiveQuestions(store.questions);
    assert |app.questions| == 1;
    assert app.questions[0].id == qid && app.questions[0].answers == [];
    assert app.questions[0].askedBy == asker.displayName && app.questions[0].imageUrl == "";

    startLoads := app.OnAuthStateChanged(Some(responder));
    panel.replyTo := Some(qid);
    panel.answer := replyText;
    assert store.questions[0].id == qid;
    var reply := Answer(replyText, responder.displayName, At(answeredAt));
    ghost var asked := store.questions;
    assert asked == [Entry(qid, q)];
    var answered := panel.HandleAnswer(store, responder, qid, answeredAt);
    assert answered == Answered;
    assert store.questions == WithAnswer(asked, qid, reply);
    FirstAnswer(Entry(qid, q), reply);
    assert store.questions == [Entry(qid, q.(answers := [reply]))];
    app.ReceiveQuestions(store.questions);
    assert |app.questions| == 1;
    assert app.questions[0].answers == [reply];
    assert app.questions[0].askedBy == asker.displayName;
    assert panel.answer == "" && panel.replyTo == None;

    // The responder asks a follow-up; the server clock has moved on.
    panel.question := followUp;
    var second := panel.HandleAsk(store, responder, askedAgainAt, "", qid2, serverTime2);
    assert second == Asked(qid2);
    app.ReceiveQuestions(store.questions);
    assert |app.questions| == 2;
    assert app.questions[0].answers == [reply];
    assert app.questions[1].id == qid2 && app.questions[1].question == followUp;
    assert app.questions[0].timestamp.millis <= app.questions[1].timestamp.millis;
  }
}
