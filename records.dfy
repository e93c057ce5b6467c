/** The values the application writes and reads: the signed-in user, picked
    files, the stored fields of document and question records, the form a
    query delivers them in, the form the client holds them in, and the
    storage paths uploaded files are kept under. */
module Records {
  import opened Text

  datatype Option<T> = None | Some(value: T)

  newtype byte = x: int | 0 <= x < 256

  /** The signed-in principal as the identity provider reports it. */
  datatype User = User(uid: string, displayName: string, photoURL: string)

  /** A file picked in a file input: its name and its content. */
  datatype File = File(name: string, content: seq<byte>)

  /** A timestamp field of a written record: either the placeholder that
      `serverTimestamp()` puts in a record and the server fills in when it
      stores it, or a time in milliseconds since the epoch. */
  datatype Timestamp = ServerTimestamp | At(millis: nat)

  /** The fields of a record of the "documents" collection. */
  datatype DocFields = DocFields(
    title: string, subject: string, url: string, fileName: string,
    uploadedBy: string, userId: string, timestamp: Timestamp)

  /** One entry of a question's `answers` array. */
  datatype Answer = Answer(text: string, answeredBy: string, timestamp: Timestamp)

  /** The fields of a record of the "questions" collection. */
  datatype QuestionFields = QuestionFields(
    question: string, imageUrl: string, answers: seq<Answer>,
    askedBy: string, userId: string, timestamp: Timestamp)

  /** A record of a collection as a query delivers it: its id and its data. */
  datatype Entry<T> = Entry(id: string, data: T)

  /** A document as the client holds it: `{ id: doc.id, ...doc.data() }`. */
  datatype Document = Document(
    id: string, title: string, subject: string, url: string, fileName: string,
    uploadedBy: string, userId: string, timestamp: Timestamp)

  /** A question as the client holds it: `{ id: doc.id, ...doc.data() }`. */
  datatype Question = Question(
    id: string, question: string, imageUrl: string, answers: seq<Answer>,
    askedBy: string, userId: string, timestamp: Timestamp)

  /** Spreads a delivered document record into the held form. */
  function DocumentOf(e: Entry<DocFields>): (d: Document)
    ensures d.id == e.id
    ensures EntryOfDocument(d) == e
  {
    var f := e.data;
    Document(e.id, f.title, f.subject, f.url, f.fileName, f.uploadedBy, f.userId, f.timestamp)
  }

  /** Splits a held document back into its id and its stored fields. */
  function EntryOfDocument(d: Document): Entry<DocFields> {
    Entry(d.id, DocFields(d.title, d.subject, d.url, d.fileName, d.uploadedBy, d.userId, d.timestamp))
  }

  /** Spreads a delivered question record into the held form. */
  function QuestionOf(e: Entry<QuestionFields>): (q: Question)
    ensures q.id == e.id
    ensures EntryOfQuestion(q) == e
  {
    var f := e.data;
    Question(e.id, f.question, f.imageUrl, f.answers, f.askedBy, f.userId, f.timestamp)
  }

  /** Splits a held question back into its id and its stored fields. */
  function EntryOfQuestion(q: Question): Entry<QuestionFields> {
    Entry(q.id, QuestionFields(q.question, q.imageUrl, q.answers, q.askedBy, q.userId, q.timestamp))
  }

  /** The ids of the records of a collection. */
  function Ids<T>(s: seq<Entry<T>>): (ids: set<string>)
    ensures forall i :: 0 <= i < |s| ==> s[i].id in ids
    ensures forall id :: id in ids ==> exists i :: 0 <= i < |s| && s[i].id == id
  {
    set i | 0 <= i < |s| :: s[i].id
  }

  /** No two records of a collection share an id. */
  ghost predicate UniqueIds<T>(s: seq<Entry<T>>) {
    forall i, j :: 0 <= i < j < |s| ==> s[i].id != s[j].id
  }

  // ---------------------------------------------------------------- storage paths

  /** `${folder}/${now}_${name}`: where an upload made at `now` is stored.
      The path is the folder, a slash, a non-empty run of digits, an
      underscore and the file name. */
  function StoragePath(folder: string, now: nat, name: string): (p: string)
    ensures |p| >= |folder| + |name| + 3
    ensures p[..|folder|] == folder && p[|folder|] == '/'
    ensures AllDigits(p[|folder| + 1..|p| - |name| - 1]) && p[|p| - |name| - 1] == '_'
    ensures p[|p| - |name|..] == name
  {
    assert (folder + "/" + Decimal(now) + "_" + name)[|folder| + 1..|folder| + 1 + |Decimal(now)|] == Decimal(now);
    folder + "/" + Decimal(now) + "_" + name
  }

  /** Where a document's file goes: `docs/${Date.now()}_${file.name}`. */
  function DocumentPath(now: nat, name: string): (p: string)
    ensures |p| >= |name| + 7 && p[..5] == "docs/" && p[|p| - |name|..] == name
  {
    StoragePath("docs", now, name)
  }

  /** Where a question's image goes: `qa/${Date.now()}_${image.name}`. */
  function ImagePath(now: nat, name: string): (p: string)
    ensures |p| >= |name| + 5 && p[..3] == "qa/" && p[|p| - |name|..] == name
  {
    StoragePath("qa", now, name)
  }

  /** In a folder, two uploads share a path exactly when they were made in
      the same millisecond and carry the same file name. */
  lemma StoragePathInjective(folder: string, m: nat, a: string, n: nat, b: string)
    ensures StoragePath(folder, m, a) == StoragePath(folder, n, b) <==> m == n && a == b
  {
    if StoragePath(folder, m, a) == StoragePath(folder, n, b) {
      var x, y := StoragePath(folder, m, a), StoragePath(folder, n, b);
      var k := |folder| + 1;
      assert x[k..] == Decimal(m) + "_" + a;
      assert y[k..] == Decimal(n) + "_" + b;
      DigitsThenUnderscore(Decimal(m), a, Decimal(n), b);
      DecimalInjective(m, n);
    }
  }

  /** A run of digits followed by "_" can be split back into the digits and
      the rest, because no digit is an underscore. */
  lemma DigitsThenUnderscore(d: string, a: string, e: string, b: string)
    requires AllDigits(d) && AllDigits(e)
    requires d + "_" + a == e + "_" + b
    ensures d == e && a == b
  {
    var x := d + "_" + a;
    UnderscoreAfterDigits(d, a);
    UnderscoreAfterDigits(e, b);
    assert |d| == |e|;
    assert d == x[..|d|];
    assert a == x[|d| + 1..];
  }

  lemma UnderscoreAfterDigits(d: string, a: string)
    requires AllDigits(d)
    ensures (d + "_" + a)[|d|] == '_'
    ensures forall i :: 0 <= i < |d| ==> (d + "_" + a)[i] != '_'
  {
  }

  /** A document's file and a question's image never share a path. */
  lemma FoldersDisjoint(m: nat, a: string, n: nat, b: string)
    ensures DocumentPath(m, a) != ImagePath(n, b)
  {
    assert DocumentPath(m, a)[0] == 'd';
    assert ImagePath(n, b)[0] == 'q';
  }
}
