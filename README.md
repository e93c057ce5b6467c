# StudyHub client logic in Dafny

StudyHub is a small web application where signed-in users share study
documents and post and answer questions. Storage, querying and identity live
in a hosted backend. The client keeps two in-memory lists: the documents and
the questions. It refreshes them from query results. Three handlers write to
the backend: upload a document, ask a question, answer a question. The
documents tab also filters the held list by a search term.

This project models that client logic from `src/App.jsx`:

- `Text`: the string operations the client uses. These are `toLowerCase`,
  `includes`, `trim`, `split(" ")` and the decimal text of `Date.now()` in a
  template literal.
- `Records`: users, files, the stored fields of both record kinds, the
  `{ id, ...data }` form the client holds, and the two storage-path formats.
- `Store`: the backend as an object with state. It holds the two
  collections (sequences of id/data entries), the blob store (a map from path
  to bytes) and the server clock. It also defines the `arrayUnion` update.
- `App`: the top component. It holds the signed-in user and both lists, and
  each delivered query result replaces a list wholesale.
- `Documents`: the search filter and `handleUpload`.
- `QA`: `handleAsk` and `handleAnswer`.
- `Scenario`: one user asks, a second user answers, and the question list is
  reloaded after each write. It uses only the handlers' contracts.

Inputs the client does not control are method parameters:

- the client clock `Date.now()` / `new Date()` (`now`);
- the URL `getDownloadURL` resolves (`url`);
- the id `addDoc` generates (`newId`, required to be unused, as the backend
  guarantees);
- the server time that fills a `serverTimestamp()` placeholder
  (`serverTime`, required not to be earlier than the store's clock, so the
  server clock never runs backwards);
- every query result (`snapshot`), in the order the backend delivers it.

Two behaviours of the code worth knowing:

- `arrayUnion` does not add an answer equal to one already in the list
  (`Store.ArrayUnion`).
- Each sign-in opens a new `onSnapshot` listener on "questions" that is
  never released (src/App.jsx:35-40). The model covers only the effect of one
  delivered snapshot.

## Model

| member | source | states |
|---|---|---|
| `Text.ToLower` | src/App.jsx:114-115 | lower-casing keeps the length, lowers each character on its own, and leaves no capital letter |
| `Text.LowerChar` | src/App.jsx:114-115 | a capital moves 32 code points up to its lower-case form; any other character is kept; the result is never a capital |
| `Text.ToLowerIdempotent` | src/App.jsx:114-115 | lower-casing an already lower-cased string changes nothing |
| `Text.Includes` | src/App.jsx:114-115 | a text includes only terms no longer than itself, and includes each of its own prefixes |
| `Text.IncludesIff` | src/App.jsx:114-115 | `includes` holds exactly when the term occurs at some position of the text |
| `Text.IncludesEmpty` | src/App.jsx:114-115 | every text includes the empty term |
| `Text.TrimStart` | src/App.jsx:183 | the result is a suffix, everything dropped is white space, and the result does not start with white space |
| `Text.TrimEnd` | src/App.jsx:183 | the result is a prefix, everything dropped is white space, and the result does not end with white space |
| `Text.Trim` | src/App.jsx:183 | the trimmed text is a run of the text with only white space around it; it is empty exactly when the text is all white space, and otherwise starts and ends with a visible character |
| `Text.Split` | src/App.jsx:55 | `split(" ")` always gives at least one part, and no part contains a space |
| `Text.JoinSplit` | src/App.jsx:55 | joining the parts with single spaces gives the original text back |
| `Text.FirstWord` | src/App.jsx:55 | the first part is a prefix of the name, holds no space, and ends at the first space or at the end of the name |
| `Text.Decimal` | src/App.jsx:100 | the decimal text of a number is non-empty, all digits, and has no leading zero |
| `Text.DecimalRoundTrip` | src/App.jsx:100 | reading the decimal text back gives the number |
| `Text.DecimalInjective` | src/App.jsx:186 | two numbers have the same decimal text exactly when they are equal |
| `Records.DocumentOf` | src/App.jsx:32 | the held document keeps the record's id, and splitting it again gives the delivered record back |
| `Records.QuestionOf` | src/App.jsx:38 | the held question keeps the record's id, and splitting it again gives the delivered record back |
| `Records.StoragePath` | src/App.jsx:100 | a path is the folder, a slash, a non-empty run of digits, an underscore and the file name |
| `Records.DocumentPath` | src/App.jsx:100 | a document path starts with `docs/` and ends with the file name |
| `Records.ImagePath` | src/App.jsx:186 | an image path starts with `qa/` and ends with the image's name |
| `Records.StoragePathInjective` | src/App.jsx:100 | two uploads to one folder share a path exactly when they were made in the same millisecond with the same file name |
| `Records.DigitsThenUnderscore` | src/App.jsx:186 | a run of digits, an underscore and a name determine the digits and the name |
| `Records.FoldersDisjoint` | src/App.jsx:186 | a document path `docs/...` never equals an image path `qa/...` |
| `Store.ArrayUnion` | src/App.jsx:201-205 | the new entry is present, the old array is a prefix, at most one entry is added, and nothing is added when an equal entry exists |
| `Store.WithAnswer` | src/App.jsx:200-206 | only the question with the given id changes, and of it only `answers`, which becomes the array union; ids, order and length are kept |
| `Store.WithAnswerMissing` | src/App.jsx:200 | an update naming no stored question changes nothing |
| `Store.BothAnswersKept` | src/App.jsx:200-206 | two answers sent one after the other to one question are both kept after the earlier ones, in arrival order |
| `Store.WithAnswerIdempotent` | src/App.jsx:201 | sending the same answer twice has the effect of sending it once |
| `Store.RemoteStore.UploadBytes` | src/App.jsx:101 | the content is stored at the path and nothing else changes |
| `Store.RemoteStore.AddDocument` | src/App.jsx:103-107 | exactly one record is appended, carrying the new id and the server time, which is not earlier than any stored record's |
| `Store.RemoteStore.AddQuestion` | src/App.jsx:190-194 | exactly one question is appended, carrying the new id and the server time |
| `Store.RemoteStore.UnionAnswer` | src/App.jsx:200-206 | the update succeeds exactly when the question exists, and the collection becomes `WithAnswer` of the old one |
| `App.DocumentsOf` | src/App.jsx:32 | one held document per delivered record, in delivered order, carrying that record's id and fields |
| `App.QuestionsOf` | src/App.jsx:38 | one held question per delivered record, in delivered order, carrying that record's id and fields |
| `App.DocumentsOfLossless` | src/App.jsx:32 | the delivered records can be recovered from the held list |
| `App.HeaderName` | src/App.jsx:52-55 | a label is shown exactly when a user is signed in; it is a space-free prefix of the display name that ends at its first space or at its end |
| `App.AppState.constructor` | src/App.jsx:12-14 | no user and two empty lists at start |
| `App.AppState.OnAuthStateChanged` | src/App.jsx:19-25 | the held user is replaced, loads start exactly when someone is signed in, and the lists are kept |
| `App.AppState.ReceiveDocuments` | src/App.jsx:29-33 | the held documents become exactly the delivered result, whatever was held before |
| `App.AppState.ReceiveQuestions` | src/App.jsx:35-40 | the held questions become exactly the delivered snapshot, whatever was held before |
| `Documents.Matches` | src/App.jsx:113-116 | the empty term matches every document, and a term longer than both the title and the subject matches none |
| `Documents.Filter` | src/App.jsx:113-116 | every kept document is held and matches, and the list does not grow |
| `Documents.FilterMembers` | src/App.jsx:113-116 | a document is kept exactly when it is held and its lower-cased title or subject includes the lower-cased term |
| `Documents.FilterMultiplicity` | src/App.jsx:113-116 | each matching document is kept as often as it is held, and no other document is kept |
| `Documents.FilterIsSubsequence` | src/App.jsx:113-116 | the filtered list is a subsequence of the held list |
| `Documents.FilterKeepsAll` | src/App.jsx:113-116 | when every held document matches, the filter returns the held list |
| `Documents.FilterEmptyTerm` | src/App.jsx:113-116 | an empty search term returns every held document |
| `Documents.FilterIdempotent` | src/App.jsx:113-116 | filtering the filtered list again with the same term changes nothing |
| `Documents.FilterIgnoresCase` | src/App.jsx:114-115 | lower-casing the term first does not change the result |
| `Documents.NewDocument` | src/App.jsx:103-107 | the record carries the form's title and subject, the download URL, the file's name, the uploader's name and uid, and a server-time placeholder |
| `Documents.DocumentsPanel.Shown` | src/App.jsx:113-116 | the tab lists a held document exactly when it matches the search box's text, keeping the held order |
| `Documents.DocumentsPanel.constructor` | src/App.jsx:92-95 | the form starts with no file and empty fields |
| `Documents.DocumentsPanel.HandleUpload` | src/App.jsx:98-111 | rejects exactly when the file is missing or the title or subject is empty, and then changes nothing; otherwise stores the file at `docs/<now>_<name>`, appends exactly one record with these fields, and clears the form |
| `QA.IsBlank` | src/App.jsx:183 | a text is blank once trimmed exactly when it is all white space |
| `QA.NewQuestion` | src/App.jsx:190-194 | the record carries the untrimmed text, the image URL, no answers, the asker's name and uid, and a server-time placeholder |
| `QA.NewAnswer` | src/App.jsx:201-205 | the answer carries the untrimmed text, the answerer's name and the client's clock |
| `QA.QAPanel.constructor` | src/App.jsx:177-180 | the form starts empty with no reply box open |
| `QA.QAPanel.HandleAsk` | src/App.jsx:182-196 | an all-white-space question changes nothing; otherwise stores the image if one was picked, appends exactly one question with the untrimmed text and no answers, stamped with the server time, which is not earlier than any stored question's, and clears the form |
| `QA.QAPanel.HandleAnswer` | src/App.jsx:198-208 | an all-white-space answer changes nothing; otherwise the answer is unioned into that question only, and the reply box is cleared; a missing question leaves everything unchanged |

## Left out

- Rendering, routing, tab switching, the document viewer, `alert` dialogs and styling are not modelled. The form fields' `onChange` setters, the reply and cancel buttons (src/App.jsx:261, 264) and `selectedDoc` are left out too. A caller sets the panel fields directly instead.
- `handleLogin` and `handleLogout` are not modelled. They call the identity provider, whose behaviour cannot be seen here.
- `onAuthStateChanged` and `onSnapshot` subscriptions and their timing are not modelled. One delivered event or snapshot is a method call on `App.AppState`.
- `orderBy("timestamp", "desc")` is not modelled. A query's result is a parameter, in delivered order.
- Backend failures are not modelled, except an `updateDoc` that names a missing question. Failed uploads or inserts, and the orphaned blob after a failed insert, are left out.
- The refresh after `handleUpload` is not modelled inside the handler. `fetchDocs()` is not awaited. Its effect is a later `App.AppState.ReceiveDocuments` call.
- Text.ToLower: JavaScript strings are sequences of UTF-16 code units, while the model's strings are sequences of Unicode scalar values. A lone surrogate cannot be represented, and a character outside the Basic Multilingual Plane counts as one element here but as two in JavaScript, so the length clause counts differently.
- Text.ToLower: only A-Z and the Latin-1 capitals U+00C0-U+00DE are lowered. Other letters are left as they are. This is weaker than full Unicode `toLowerCase`.
- Text.Decimal: the exponent notation JavaScript uses for numbers of 10^21 and above is not modelled. Millisecond clock values are far below that.
- Server timestamps are always filled in the model. A local snapshot with a still-pending `serverTimestamp()` shows `null`; that is not modelled.
- A user whose `displayName` is `null` is not modelled. The header split would throw, and records would store `null`.
- A handler called with no signed-in user is not modelled. The forms only render when a user is signed in (src/App.jsx:120, 212, 250).
- A data field named `id` would override the document id in `{ id, ...data }`. Records never carry such a field, so this is not modelled.
- `src/firebase.js` is configuration only and is not part of this model.
