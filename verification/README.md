# A verified model of the mensajeroX server

The repository is a chat server written in C++ on top of a bundled C web server. This
project models its two cores in Dafny and proves what they promise.

**The conversation store.** Requests are steps over a key/value map that holds users,
conversations keyed by an ordered pair of ids, and a per-user index; lists are flattened
with a `#` separator and split again on reading. `Chat` is the abstract chat those texts
stand for. Every reachable database is the text form of such a chat (`Runs.RunHolds`), and
from that follow the guarantees over all runs: one conversation per pair, indexes that agree
with the conversations, append-only history, loss-free polling, broadcasts that refine
single posts. `Saying` says what was said in one conversation and what it then reads as.
`Server` holds the objects and handlers themselves, each proved equal to its step, up to a
whole service (`Server.Service.Serve`). The store relies on laws of the JSON text and of the
identifiers, collected in `Records.Platform.Lawful`; for MD5 identifiers and the JSON library
they are theorems (`ServerPlatform.ServerPlatformIsLawful`).

**Exceptions.** The JSON library raises an exception when a member of something other than an
object is asked for, and nothing catches it, so the process ends. `Records.Attempt` is the
result of code that may raise one; every load, delivery and step passes it on. A run is the
requests of one or several lives of the server, since the database outlives the process.

**The JSON library.** `JsonText` has the styled writer and the reader: tokens, both kinds of
comments, numbers, words, strings with their escapes, nested arrays and objects, the limit on
nesting, and the places where a comment may stand. `Shards`, `Pieces` and `Remnants` follow
what that reader makes of a message that was cut at its separators.

**The octet-level code.** Two MD5 implementations against RFC 1321 and against each other,
SHA-1 against RFC 3174, base 64 against RFC 4648, WebSocket framing against RFC 6455,
percent-encoding, form lookup, the path cleaner, the glob matcher, the end-of-headers scanner
and the chunked writer against RFC 7230. Loops, in-place buffers and aliasing are kept as
methods on arrays and classes; each is tied to a function on values, and the properties are
proved of that function.

| files | content |
|---|---|
| `StringUtil`, `Records`, `Tables`, `Requests` | text lists, records, tables and the request steps |
| `Chat`, `Runs`, `Rereading`, `Saying`, `History`, `Guarantees`, `Polling` | the abstract chat, the simulation, and what holds over all runs |
| `Server` | the objects and handlers |
| `JsonText`, `Shards`, `Pieces`, `Remnants`, `ServerPlatform` | the JSON text, whole and cut; the laws discharged, and what follows on the server itself |
| `Words`, `BitOps`, `Rfc1321`, `Md5Class`, `Md5Context`, `Md5Agreement` | octets, counters, block streams and bit operators; MD5 twice |
| `Rfc3174`, `Sha1`, `Base64`, `Handshake` | SHA-1, base 64 and the WebSocket handshake |
| `WebSocket`, `WebSocketLink` | frames and streams; the buffer, the receiver and the writer |
| `Percent`, `Form`, `Paths`, `Glob`, `Headers`, `Chunked` | the remaining HTTP algorithms |

`dafny verify dfyconfig.toml` checks all files together.

## What turned out false, and when it holds

- A conversation reads back as what was said in it if and only if nothing said in it contains
  `#` (`Guarantees.ReadsWhatWasSaid`, `Guarantees.PostAppends`, `Rereading.RereadExact`);
  `Guarantees.SeparatorBreaksHistory` gives a failing run for every body or date with a
  separator.
- A conversation cannot always be read at all: loading it raises an exception if and only if
  the body and date of a message said in it spill (`ServerPlatform.ServerHistory`,
  `Remnants.TextSpills`), and then for good (`Guarantees.StuckForever`);
  `ServerPlatform.DigitCloses` gives the runs for bodies such as `#1`. While it can be read,
  history is append-only, separators or not.
- A message with a separator that does not spill reads as blank messages and remnants of itself
  (`ServerPlatform.ServerReads`); `ServerPlatform.CommentRemains` gives a run with a remnant.
- A poll catches up exactly when the last message held carries an id that no earlier one
  carries (`Polling.PollExact`), and polling is lossless under every interleaving exactly when
  the ids said are distinct (`Polling.LosslessExactly`); ids are made of sender and date, and
  `Polling.RepeatedIdRepeats` gives runs in which a client ends with a message twice.
- The path cleaner removes every `..` segment but a first one (`Paths.DotDotLeft`).
- With several alternatives the glob matcher can answer -1 although an alternative matches
  the empty prefix: `Glob.EmptyMatchIsLost`, with the exact condition in `Glob.AnyComplete`.
- Sending empty data ends a chunked body early: `Chunked.BodyRoundTrip` is the exact
  condition and `Chunked.DechunkUpTo` says what a client then reads. A zero status code makes
  a second status line: `Chunked.Codes`.
- `obtenerIdConversacion` compares with the sentinel of users where its comment speaks of a
  missing conversation, so a missing conversation is answered as a success with the
  conversation sentinel; the model follows the code (`Server.Service.FindId`).

## Model

| member | source | states |
|---|---|---|
| `StringUtil.SplitLoop` | Servidor/src/Utilidades/StringUtil.cpp:45-57 | the loop returns the fields between separators, with a final empty field dropped |
| `StringUtil.SplitIsFields` | Servidor/src/Utilidades/StringUtil.cpp:45-57 | `split` gives the separator-free fields of the text except an empty last one; `Fields` is defined independently, character by character |
| `StringUtil.FieldsAreFree` | Servidor/src/Utilidades/StringUtil.cpp:45-57 | no piece contains the separator |
| `StringUtil.SplitAppend` | Servidor/src/Utilidades/StringUtil.cpp:45-57 | appending a separator and a new piece appends exactly that piece to the split |
| `StringUtil.JoinSkipsLeadingEmpty` | Servidor/src/Entidades/Conversacion.cpp:66-83 | the accumulating join loses a leading empty piece |
| `StringUtil.SplitInvertsJoin` | Servidor/src/Utilidades/StringUtil.cpp:45-57 | splitting a joined list gives the list back if and only if its pieces are separator-free and the first and last are not empty |
| `Records.UserRoundTrip` | Servidor/src/Entidades/Usuario.cpp:174-224 | a user written and read back is the same user, connection flag included |
| `Records.MessageRoundTrip` | Servidor/src/Entidades/Mensaje.cpp:24-58 | a message written and read back is the same message |
| `Records.WrittenMessage` | Servidor/src/Entidades/Mensaje.cpp:24-34 | the written text contains the list separator if and only if some member of the message does |
| `Records.DigestIsPlain` | Servidor/src/Entidades/Usuario.cpp:33-49 | an MD5 hex identifier is not empty, contains neither `#` nor `-`, and is not the missing-user sentinel |
| `JsonText.DecodeEscaped` | Servidor/src/json/json.cpp:832-883 | decoding what stands between the quotes undoes every escape the writer makes |
| `JsonText.LexQuoted` | Servidor/src/json/json.cpp:619-629 | a quoted text is one string token, whatever follows, and the token is the text |
| `JsonText.LexMembers` | Servidor/src/json/json.cpp:426-495 | the tokens of a styled object are those of its members in order |
| `JsonText.MemberParsed` | Servidor/src/json/json.cpp:631-685 | a written member is read back at any depth the reader accepts, and reading goes on behind it |
| `JsonText.ReadWritten` | Servidor/src/json/json.cpp:4305-4362 | parsing a styled object gives the object back, in whatever order its members were written, if and only if no member name contains a NUL |
| `JsonText.OneOrder` | Servidor/src/json/json.cpp:2650-2661 | the order of member names is total, so members are written in one order only |
| `JsonText.WrittenSeparator` | Servidor/src/json/json.cpp:4152-4215 | escaping neither adds nor hides the list separator, and the text opens with a brace and ends with a newline |
| `ServerPlatform.Md5PlatformIsLawful` | Servidor/src/Utilidades/md5.cpp:329-334 | with MD5 identifiers the platform laws hold if and only if the three JSON laws do |
| `ServerPlatform.ServerPlatformIsLawful` | Servidor/src/json/json.cpp:3724-3727 | with MD5 identifiers and the styled JSON text every law the store relies on is a theorem |
| `Shards.RawLexed` | Servidor/src/json/json.cpp:426-617 | the tokens of an escaped text that stands where a value should are told from the unescaped text, with the mode (between tokens, in a comment of either kind, stopped) in which what follows is read |
| `Pieces.CutLexed` | Servidor/src/json/json.cpp:426-629 | the tokens of a piece that starts inside a value are told from the unescaped values, up to the first that is none |
| `Pieces.MuteValue` | Servidor/src/json/json.cpp:332-723 | what stands behind such a token makes no difference to the reader, whose values, arrays and objects nest |
| `Pieces.CutView` | Servidor/src/json/json.cpp:332-414 | a piece makes `get` raise an exception exactly when it starts with a string, a number that decodes, a boolean, or an array that closes or nests too deep; any other piece fails to parse or reads as an object without members or with the written members that a comment to the end of the line exposes |
| `Remnants.CutsAreFields` | Servidor/src/Utilidades/StringUtil.cpp:45-57 | the fields of a written object are the pieces made from its unescaped values |
| `Remnants.MessageFields` | Servidor/src/Entidades/Mensaje.cpp:24-34 | the fields of a written message, its members in the order of their names |
| `Remnants.FirstRead` | Servidor/src/json/json.cpp:631-685 | the piece that opens an object reads as the object if it closes it, and as nothing otherwise |
| `Remnants.PieceReads` | Servidor/src/Entidades/Mensaje.cpp:40-58 | behind the first cut of a message a piece raises an exception exactly when it spills, and otherwise gives a blank message or a remnant of the message, free of the separator |
| `Remnants.SpillsByText` | Servidor/src/Entidades/Mensaje.cpp:40-58 | whether a message spills is a matter of its body and its date alone |
| `Remnants.EndingSpills` | Servidor/src/json/json.cpp:619-629 | every message whose body ends with a separator spills |
| `Remnants.DigitSpills` | Servidor/src/json/json.cpp:735-773 | every message whose body ends with a separator and a digit spills |
| `Remnants.HarmlessDoesNotSpill` | Servidor/src/json/json.cpp:426-495 | a message spills only if a text behind a separator starts, blanks aside, with a token or a comment |
| `ServerPlatform.ServerReads` | Servidor/src/Entidades/Mensaje.cpp:40-58 | on the server a message with a separator raises an exception when it is read back if and only if it spills; otherwise it reads as one message for each piece, the first blank, the others blank or the message without its body, or without body and date |
| `ServerPlatform.ServerSettles` | Servidor/src/Entidades/Conversacion.cpp:94-126 | what is read of a message holds no separator, so the hypothesis of the append-only guarantee is met by the library's own reader |
| `ServerPlatform.ServerHistory` | Servidor/src/Entidades/Conversacion.cpp:94-126 | on the server, in every run, loading a conversation raises an exception if and only if the body and date of a message said in it spill; otherwise it reads as its messages one by one, and at every earlier moment it read as a prefix of that |
| `ServerPlatform.DigitCloses` | Servidor/src/json/json.cpp:3397-3401 | one post whose body ends with a separator and a digit, such as `#1`, closes its conversation: whatever comes later, loading it raises an exception |
| `ServerPlatform.CommentRemains` | Servidor/src/json/json.cpp:581-595 | after one post with the body `#{//` the conversation reads as a blank message and the message without its body |
| `ServerPlatform.LawfulPlatform` | Servidor/src/json/json.cpp:3724-3727 | a platform with all the laws exists, so no guarantee of the store is empty |
| `Tables.KeysApart` | Servidor/src/BaseDeDatos/BaseDeDatos.cpp:17-20 | the keys of users, conversations and indexes never collide |
| `Tables.PairIdInjective` | Servidor/src/Entidades/Conversacion.cpp:28-42 | for hex identifiers the pair id determines the ordered pair |
| `Tables.ReadTalkText` | Servidor/src/Entidades/Conversacion.cpp:94-126 | what a stored conversation text parses to, both lists split again, or the exception that a piece raises |
| `Tables.IndexesFrame` | Servidor/src/BaseDeDatos/BaseDeDatos.cpp:107-123 | writing indexes leaves users and conversations alone |
| `Tables.SaveTalkFrame` | Servidor/src/BaseDeDatos/BaseDeDatos.cpp:107-123 | saving a conversation changes its own key and the two indexes only |
| `Tables.DeliverKeepsUsers` | Servidor/src/Servidor/Servicio.cpp:282-313 | delivering a message changes no user record |
| `Chat.LoadTalkOf` | Servidor/src/Entidades/Conversacion.cpp:94-126 | a stored dialogue reads back with its id, its two users as they are now, and its reread log, or raises the exception of its log |
| `Chat.LoadTalkNone` | Servidor/src/BaseDeDatos/BaseDeDatos.cpp:139-152 | an id that is no dialogue reads as the missing conversation |
| `Chat.IndexSplits` | Servidor/src/BaseDeDatos/BaseDeDatos.cpp:107-132 | an index text splits into the sentinel and the ids of the user's dialogues in order |
| `Chat.AddToBoth` | Servidor/src/BaseDeDatos/BaseDeDatos.cpp:107-123 | the two index updates of a save add the id once to each user, also when both are the same user |
| `Chat.SaveAgain` | Servidor/src/BaseDeDatos/BaseDeDatos.cpp:107-123 | saving a dialogue again replaces its text and leaves all indexes as they are |
| `Chat.SaveFirst` | Servidor/src/BaseDeDatos/BaseDeDatos.cpp:107-123 | saving a new dialogue adds its text and one entry at the end of its users' indexes |
| `Chat.FindPairSymmetric` | Servidor/src/Servidor/Servicio.cpp:348-354 | the lookup gives the same dialogue for both orders of two users |
| `Chat.LookupPair` | Servidor/src/Servidor/Servicio.cpp:282-313 | the two-order lookup in the texts finds exactly the dialogue of the two users |
| `Chat.DeliverIsSay` | Servidor/src/Servidor/Servicio.cpp:282-313 | searching both orders, appending or creating, and saving, on texts, is saying the message in the abstract chat, which stays valid; the one raises an exception exactly when the other does |
| `Runs.UserStepHolds` | Servidor/src/Servidor/Servicio.cpp:121-252 | registering, editing, consulting and checking in keep the texts in step with the chat |
| `Runs.PostHolds` | Servidor/src/Servidor/Servicio.cpp:259-325 | posting keeps the texts in step with the chat |
| `Runs.BroadcastHolds` | Servidor/src/Servidor/Servicio.cpp:542-614 | broadcasting keeps the texts in step with the chat |
| `Runs.StepHolds` | Servidor/src/Servidor/Servicio.cpp:121-637 | every request of every kind keeps the texts in step with the chat |
| `Runs.RunHolds` | Servidor/src/Servidor/Servidor.cpp:38-49 | every database reachable by requests, those that end in an exception included, is the text form of a valid chat: one dialogue per pair, registered users, a message in each |
| `Rereading.RereadExact` | Servidor/src/Entidades/Conversacion.cpp:61-126 | a log survives writing and reading back if and only if no member of any message contains the separator |
| `Saying.SaidIsClean` | Servidor/src/Servidor/Servicio.cpp:259-313 | every message said in a conversation has identifiers for its id and sender, and all are separator-free if each request that addresses the conversation is |
| `Saying.RunEchoes` | Servidor/src/Entidades/Conversacion.cpp:53-126 | over every run a conversation reads as its messages stored and read back in turn, and no request to another conversation matters |
| `Saying.EchoExact` | Servidor/src/Entidades/Conversacion.cpp:61-126 | messages stored and read back in turn give themselves if all are separator-free, and otherwise more messages or an exception |
| `Saying.EchoHeard` | Servidor/src/Entidades/Conversacion.cpp:94-126 | if what is read of a message holds no separator, they give what each of them reads as alone |
| `Rereading.DirtySplitsMore` | Servidor/src/Entidades/Conversacion.cpp:61-126 | a log with a separator in it reads back as more messages than were written, if it can be read back |
| `History.FindTalkAnswer` | Servidor/src/Servidor/Servicio.cpp:331-380 | the id answered for two users is that of their dialogue, and the same for both orders; a dialogue that cannot be read ends the request |
| `History.FetchAnswer` | Servidor/src/Servidor/Servicio.cpp:386-427 | a fetch answers the reread log after the given message, or that there is no such conversation, or ends in the exception of the log |
| `History.ListAnswer` | Servidor/src/Servidor/Servicio.cpp:435-501 | listing answers one summary per unknown dialogue of the user, in order, with the other participant, and never reads out of range; one of them that cannot be read ends the whole listing |
| `History.IndexReads` | Servidor/src/BaseDeDatos/BaseDeDatos.cpp:129-132 | a user's index splits into the sentinel and the ids of the user's dialogues |
| `Guarantees.OneStoredPerPair` | Servidor/src/Servidor/Servicio.cpp:259-313 | in every reachable state at most one of the two orders of a pair is stored |
| `Guarantees.StoredTalkShape` | Servidor/src/Servidor/Servicio.cpp:259-313 | in every reachable state a stored conversation has two registered users and the id of that pair and, if it can be read, those users and a message |
| `Guarantees.IndexAgrees` | Servidor/src/BaseDeDatos/BaseDeDatos.cpp:107-132 | in every reachable state a user's index lists, after the sentinel, exactly the stored conversations the user is in, each once |
| `Guarantees.IndexGrowsAtEnd` | Servidor/src/BaseDeDatos/BaseDeDatos.cpp:107-132 | over any run an index only grows at its end, so it is in order of creation |
| `Guarantees.NeverFaults` | Servidor/src/Servidor/Servicio.cpp:471-480 | no request indexes out of range in a reachable state, and a request ends in an exception exactly when it loads a dialogue that cannot be read |
| `Guarantees.ReadsWhatWasSaid` | Servidor/src/Entidades/Conversacion.cpp:53-126 | over every run a conversation reads back as exactly what was said in it if and only if nothing said in it contains the separator, whatever is said elsewhere; otherwise it reads back as more, or ends in an exception |
| `Guarantees.AppendOnly` | Servidor/src/Entidades/Conversacion.cpp:53-126 | while nothing said in a conversation contains the separator, what it reads as is at all times a prefix of what it reads as later, whatever is said elsewhere |
| `Guarantees.ReadsWhatWasHeard` | Servidor/src/Entidades/Conversacion.cpp:94-126 | if what is read of a message holds no separator, every conversation of every run reads as its messages one by one, and ends in an exception exactly when one of them does |
| `Guarantees.AlwaysAppendOnly` | Servidor/src/Entidades/Conversacion.cpp:53-126 | then history is append-only in every run, whatever is said: a conversation that can be read could be read at every earlier moment, as a prefix |
| `Guarantees.StuckForever` | Servidor/src/Servidor/Servicio.cpp:282-313 | once a conversation cannot be read it never can be again, and nothing more is said in it |
| `Guarantees.PostAppends` | Servidor/src/Servidor/Servicio.cpp:259-313 | in every reachable state an accepted post extends what its conversation reads as by exactly its message if and only if that message and those read before are separator-free |
| `Guarantees.SeparatorBreaksHistory` | Servidor/src/Entidades/Conversacion.cpp:61-126 | for every body or date with a separator, one post makes the conversation read back as more messages than were said, or not at all |
| `Guarantees.DeliverTouchesOnly` | Servidor/src/Servidor/Servicio.cpp:282-313 | delivering to one contact leaves every other conversation and index unchanged |
| `Guarantees.BroadcastTouchesOnly` | Servidor/src/Servidor/Servicio.cpp:567-609 | in every reachable state a broadcast changes only conversations between the sender and a live contact, and their indexes |
| `Requests.LiveExactly` | Servidor/src/Servidor/Servicio.cpp:574-580 | a contact whose user can be read is live exactly when it is listed and the user is registered and connected |
| `Requests.ReachableAreLive` | Servidor/src/Servidor/Servicio.cpp:508-535 | the contacts answered are the users of the live phones, in order |
| `Requests.BroadcastIsPosts` | Servidor/src/Servidor/Servicio.cpp:567-609 | a broadcast leaves the database that posting once to each live contact, in list order, leaves until a post ends in an exception, and then the broadcast ends in one too |
| `Polling.SinceExact` | Servidor/src/Servidor/Servicio.cpp:393-409 | asking from a message on answers exactly what follows it if and only if no earlier message has its id |
| `Polling.PollExact` | Servidor/src/Servidor/Servicio.cpp:386-418 | a client holding the first messages of a stored conversation holds all of them after a poll if and only if it held none, or its last one carries an id that no earlier one carries |
| `Polling.PollCatchesUp` | Servidor/src/Servidor/Servicio.cpp:386-418 | over every run whose messages in the conversation are separator-free with distinct ids, a poll by a client holding a prefix of what was said leaves it with all of it |
| `Polling.PollingIsLossless` | Servidor/src/Servidor/Servicio.cpp:386-418 | under any interleaving of requests and polls, if the messages said in this conversation are separator-free and have distinct ids, whatever is said elsewhere, the client holds a prefix of the server's log without loss or repetition, and all of it right after a poll |
| `Polling.LosslessExactly` | Servidor/src/Servidor/Servicio.cpp:386-418 | over every run whose messages in the conversation are separator-free, every interleaving with polls is lossless if and only if the ids said in it are distinct |
| `Polling.RepeatedIdRepeats` | Servidor/src/Entidades/Mensaje.cpp:6-11 | two posts of one sender with one date, then two polls: the client holds the second message twice |
| `Server.Database.PutUser` | Servidor/src/BaseDeDatos/BaseDeDatos.cpp:84-86 | the user is stored under its key and nothing else changes |
| `Server.Database.FindUser` | Servidor/src/BaseDeDatos/BaseDeDatos.cpp:92-104 | the stored user, the missing one, or the exception of the stored text |
| `Server.Database.PutTalk` | Servidor/src/BaseDeDatos/BaseDeDatos.cpp:107-123 | the conversation and the indexes of its users after a save |
| `Server.Database.FindIds` | Servidor/src/BaseDeDatos/BaseDeDatos.cpp:129-132 | the pieces of a user's index |
| `Server.Database.FindTalk` | Servidor/src/BaseDeDatos/BaseDeDatos.cpp:139-152 | the stored conversation with its users loaded, the missing one, or the exception of the stored text |
| `Server.Talk.GetId` | Servidor/src/Entidades/Conversacion.cpp:28-42 | the stored id, or the pair of the users' ids |
| `Server.Talk.AddMessage` | Servidor/src/Entidades/Conversacion.cpp:53-55 | the message goes to the end of the log and nothing else changes |
| `Server.Talk.Serialise` | Servidor/src/Entidades/Conversacion.cpp:61-88 | the two accumulating loops write the joined ids and the joined messages |
| `Server.Talk.Deserialise` | Servidor/src/Entidades/Conversacion.cpp:94-126 | the two loops rebuild the lists; a failed parse changes nothing, and a piece that is no object ends it in an exception |
| `Server.Service.Register` | Servidor/src/Servidor/Servicio.cpp:121-144 | the new database and reply of a registration, with the stored chat kept in step |
| `Server.Service.EditProfile` | Servidor/src/Servidor/Servicio.cpp:158-205 | the same for a profile edit: missing user, wrong token, or all five members replaced |
| `Server.Service.Consult` | Servidor/src/Servidor/Servicio.cpp:211-252 | the same for a consultation, which also renews the record, and its failure reply with the number |
| `Server.Service.CheckIn` | Servidor/src/Servidor/Servicio.cpp:621-637 | the same for a check-in |
| `Server.Service.DeliverTo` | Servidor/src/Servidor/Servicio.cpp:282-313 | the nested search and append or create is `Deliver`; an exception leaves the database as it was |
| `Server.Service.Post` | Servidor/src/Servidor/Servicio.cpp:259-325 | the same for a post, with every error reply |
| `Server.Service.DeliverToEach` | Servidor/src/Servidor/Servicio.cpp:567-609 | the loop over the contacts delivers to the registered and connected ones in order, up to an exception, and keeps what it has delivered |
| `Server.Service.Broadcast` | Servidor/src/Servidor/Servicio.cpp:542-614 | the same for a broadcast |
| `Server.Service.FindId` | Servidor/src/Servidor/Servicio.cpp:331-380 | the id found, following the guard as it is written |
| `Server.Service.Fetch` | Servidor/src/Servidor/Servicio.cpp:386-427 | the loop with its flag answers the messages after the given one |
| `Server.Service.FindContacts` | Servidor/src/Servidor/Servicio.cpp:508-535 | the registered and connected contacts, in order |
| `Server.Service.ListTalks` | Servidor/src/Servidor/Servicio.cpp:435-501 | the two loops answer the summaries, with every index in range |
| `Server.Service.Handle` | Servidor/src/Servidor/Servicio.cpp:121-637 | one request of any kind gives the database and reply of the step, the exception included, keeps the invariant and never faults |
| `Server.Service.Serve` | Servidor/src/Servidor/Servidor.cpp:38-49 | a service from an empty database to the end of the requests, or to the first exception, which ends the process, leaves exactly the database of the run of the requests handled, so all guarantees above hold of it |
| `Words.CountAdds` | Servidor/src/Utilidades/md5.cpp:223-232 | the two-word counter with its carry and `>> 29` term adds the bits of any chunk modulo 2^64 |
| `Words.CountIndex` | Servidor/src/Utilidades/md5.cpp:226 | the buffer index read off the counter is the message length modulo 64 |
| `BlockStream.AbsorbFill` | Servidor/src/Utilidades/md5.cpp:237-251 | completing a buffered block folds it in |
| `BlockStream.AbsorbShort` | Servidor/src/Utilidades/md5.cpp:252-255 | a short chunk only extends the buffered tail |
| `Rfc1321.PaddingIs` | Servidor/src/Utilidades/md5.cpp:270-290 | the padding of section 3.1 of RFC 1321 as one byte, zeros and the length, filling whole blocks |
| `Rfc1321.DigestFrom` | Servidor/src/Utilidades/md5.cpp:270-302 | the state after absorbing message and padding gives the digest of RFC 1321 |
| `Md5Class.FFNext` | Servidor/src/Utilidades/md5.cpp:33-59 | one `FF` step with its fixed word, shift and constant is the step of RFC 1321 (as `GGNext`, `HHNext` and `IINext`) |
| `Md5Class.Round1` | Servidor/src/Utilidades/md5.cpp:138-154 | the sixteen calls of round 1 are steps 1 to 16 of section 3.4 of RFC 1321 (as `Round2`, `Round3` and `Round4` for the other rounds) |
| `Md5Class.SpelledOut` | Servidor/src/Utilidades/md5.cpp:109-114 | the shifts and ors of `decode` read words low octet first |
| `Md5Class.CutUp` | Servidor/src/Utilidades/md5.cpp:120-128 | the shifts and masks of `encode` write words low octet first |
| `Md5Class.MD5.Transform` | Servidor/src/Utilidades/md5.cpp:133-217 | the block transformation is the compression of RFC 1321 |
| `Md5Class.MD5.Update` | Servidor/src/Utilidades/md5.cpp:223-256 | after any update the object depends only on the concatenated input: state, buffered tail and bit counter |
| `Md5Class.MD5.Finalize` | Servidor/src/Utilidades/md5.cpp:270-302 | the digest of everything given, and later calls give it again |
| `Md5Class.MD5.HexDigest` | Servidor/src/Utilidades/md5.cpp:307-318 | the digest in lower-case hex |
| `Md5Class.Md5` | Servidor/src/Utilidades/md5.cpp:329-334 | `md5` is the hex digest of RFC 1321 |
| `BitOps.FromOctets` | Servidor/src/Utilidades/md5.cpp:109-114 | or of shifted octets is the number they spell |
| `BitOps.OctetAt` | Servidor/src/Utilidades/md5.cpp:120-128 | a shift and a mask of eight ones give one octet of a word |
| `BitOps.Bits3To8` | Servidor/src/WebServer/mongoose.c:2930 | the mask of the padding test keeps the number of buffered octets times eight |
| `BitOps.LowBits` | Servidor/src/WebServer/mongoose.c:2996 | the mask of seven ones gives the length field of a frame (as `HighBit` and `Wide` for the mask flag and the two length octets) |
| `Md5Context.F2IsG` | Servidor/src/WebServer/mongoose.c:3924-3927 | the rewritten round functions are those of RFC 1321 (as `F1IsF`, `F3IsH` and `F4IsI`) |
| `Md5Context.Steps1` | Servidor/src/WebServer/mongoose.c:3952-3967 | sixteen rewritten steps are steps 1 to 16 of RFC 1321 (as `Steps2`, `Steps3` and `Steps4`) |
| `Md5Context.ByteReverse` | Servidor/src/WebServer/mongoose.c:3910-3922 | on either byte order the words read afterwards are the little-endian words of the block |
| `Md5Context.Context.Update` | Servidor/src/WebServer/mongoose.c:4026-4060 | after any update the context depends only on the concatenated input |
| `Md5Context.Context.Final` | Servidor/src/WebServer/mongoose.c:4062-4090 | the hand-placed padding, in one block or two, gives the digest of RFC 1321 |
| `Md5Context.MgMd5` | Servidor/src/WebServer/mongoose.c:4108-4125 | `mg_md5` of a list of strings is the hex digest of their concatenation |
| `Md5Agreement.ClassDigest` | Servidor/src/Utilidades/md5.cpp:223-302 | the class over any chunks computes the RFC 1321 digest of their concatenation |
| `Md5Agreement.ContextDigest` | Servidor/src/WebServer/mongoose.c:4026-4090 | the context over any chunks computes the same |
| `Md5Agreement.SameDigest` | Servidor/src/WebServer/mongoose.c:3924-4090 | the two implementations agree on every message under every two ways of cutting it |
| `Md5Agreement.SameHex` | Servidor/src/WebServer/mongoose.c:4108-4125 | `mg_md5` and `md5` give the same 32 hex digits |
| `Md5Agreement.HexIsDigest` | Servidor/src/Utilidades/md5.cpp:307-318 | the hex form has 32 digits, so it is usable as an identifier |
| `Sha1.SelectIsCh` | Servidor/src/WebServer/mongoose.c:2836-2840 | the round macros compute the functions of section 5 of RFC 3174 (as `MajorityIsMaj` and `BlendIsMix`) |
| `Sha1.BlkIsW` | Servidor/src/WebServer/mongoose.c:2834-2835 | a slot of the circular 16-word schedule, after its update, is the word of the 80-word schedule of section 6.1 of RFC 3174 |
| `Sha1.RollsOn` | Servidor/src/WebServer/mongoose.c:2834-2835 | the circular buffer holds the last sixteen words of that schedule at every step |
| `Sha1.Transform` | Servidor/src/WebServer/mongoose.c:2848-2888 | the in-place eighty rounds are the compression of RFC 3174 |
| `Sha1.Context.Update` | Servidor/src/WebServer/mongoose.c:2899-2918 | after any update the context depends only on the concatenated input |
| `Sha1.Context.PadZeros` | Servidor/src/WebServer/mongoose.c:2930-2933 | the byte-at-a-time padding loop ends, after exactly the zeros of section 4 of RFC 3174 |
| `Sha1.Context.Final` | Servidor/src/WebServer/mongoose.c:2920-2941 | the digest of RFC 3174 of everything given |
| `Base64.RoundTrip` | Servidor/src/WebServer/mongoose.c:2944-2967 | an independent decoder for section 4 of RFC 4648 recovers every input, and the length is 4 for every 3 octets or part of them |
| `Base64.Sextets` | Servidor/src/WebServer/mongoose.c:2954-2961 | the shifts, masks and ors cut three octets into their four indices |
| `Base64.EncodeInto` | Servidor/src/WebServer/mongoose.c:2944-2967 | the loop writes that text and a terminating NUL, with the padding loop |
| `Handshake.Reply` | Servidor/src/WebServer/mongoose.c:2969-2987 | the accept value is the base 64 SHA-1 digest of key and identifier for every key up to 463 octets, and of the cut text beyond |
| `WebSocket.XorTwice` | Servidor/src/WebServer/mongoose.c:3019-3024 | masking an octet twice gives it back |
| `WebSocket.FrontOf` | Servidor/src/WebServer/mongoose.c:2989-3015 | a frame of any of the three length forms, masked or not, is read whole and unmasked, whatever follows it |
| `WebSocket.PartialFrame` | Servidor/src/WebServer/mongoose.c:2989-3011 | no proper prefix of a frame is taken for a frame |
| `WebSocket.FrontIsStable` | Servidor/src/WebServer/mongoose.c:2989-3011 | what can be read from a buffer is not changed by what arrives later |
| `WebSocket.DrainConcat` | Servidor/src/WebServer/mongoose.c:3391-3395 | delivering can be cut anywhere: first one part of the stream, then the rest of it |
| `WebSocket.DrainPrefix` | Servidor/src/WebServer/mongoose.c:3391-3395 | after any first part of a stream of frames exactly the complete frames are delivered, in order, and the octets of the partial one remain |
| `WebSocket.DrainAll` | Servidor/src/WebServer/mongoose.c:3391-3395 | a whole stream is delivered whole with nothing left |
| `WebSocketLink.Iobuf.Append` | Servidor/src/WebServer/mongoose.c:357-382 | the data goes to the end, in place or in a larger block; nothing changes and zero is answered when the address test fails or no block can be had |
| `WebSocketLink.Iobuf.Remove` | Servidor/src/WebServer/mongoose.c:384-389 | the rest moves to the front of the same block; out-of-range counts change nothing |
| `WebSocketLink.Unmask` | Servidor/src/WebServer/mongoose.c:3019-3024 | the in-place loop unmasks the payload and changes nothing else |
| `WebSocketLink.Receiver.DeliverFrame` | Servidor/src/WebServer/mongoose.c:2989-3034 | a complete front frame is delivered unmasked and exactly its octets are removed; otherwise nothing changes |
| `WebSocketLink.Receiver.DeliverAll` | Servidor/src/WebServer/mongoose.c:3391-3395 | the loop ends, because the buffer shrinks, with every complete frame delivered |
| `WebSocketLink.Receiver.Receive` | Servidor/src/WebServer/mongoose.c:3391-3395 | one read: the new octets join what was left and all complete frames are delivered |
| `WebSocketLink.Receiver.ReceiveNext` | Servidor/src/WebServer/mongoose.c:3391-3395 | after one more read the state is that of the longer stream, however it was cut before |
| `WebSocketLink.Receiver.ReceiveStream` | Servidor/src/WebServer/mongoose.c:2989-3034 | for every list of frames and every way of cutting it into reads, the delivered payloads are those of the frames that arrived complete |
| `WebSocketLink.WriteFrame` | Servidor/src/WebServer/mongoose.c:3036-3082 | the octets sent are one final unmasked frame in the shortest length form, or nothing when the size overflows |
| `WebSocketLink.WriteAll` | Servidor/src/WebServer/mongoose.c:3036-3082 | everything written is read back by the receiver: same opcodes, same data, same order |
| `Percent.RoundTrip` | Servidor/src/WebServer/mongoose.c:2447-2471 | decoding, in either mode, inverts encoding |
| `Percent.EncodeInto` | Servidor/src/WebServer/mongoose.c:3531-3550 | where the encoder stops for a given room; what it wrote decodes to a prefix of the source, and to all of it when the room exceeds three times the source |
| `Percent.DecodeInto` | Servidor/src/WebServer/mongoose.c:2447-2471 | the result is the decoding of what the source was, also when destination and source are the same block; -1 exactly when it does not fit |
| `Percent.DecodeInPlace` | Servidor/src/WebServer/mongoose.c:2522-2523 | the request path is decoded where it stands |
| `Form.SearchIsLookup` | Servidor/src/WebServer/mongoose.c:4993-4997 | the search at every position finds what a lookup field by field finds, for every text and every name without an ampersand |
| `Form.LookupPrinted` | Servidor/src/WebServer/mongoose.c:4975-5020 | in a printed form the lookup finds the first field of that name, up to case |
| `Form.AnswerPrinted` | Servidor/src/WebServer/mongoose.c:4975-5020 | the answer for a printed form is the decoded first value, -1 when there is none, -2 exactly when it does not fit |
| `Form.CompareName` | Servidor/src/WebServer/mongoose.c:2546-2555 | zero exactly when the names agree up to case |
| `Form.GetVar` | Servidor/src/WebServer/mongoose.c:4975-5020 | the answer and the contents of the destination, for every text, name and room, null arguments and a destination that is the searched block included |
| `Form.RequestVar` | Servidor/src/WebServer/mongoose.c:5022-5030 | the query string's value, and the body's when that gives none |
| `Paths.CleanIsNormal` | Servidor/src/WebServer/mongoose.c:2428-2445 | in the result no slash is followed by a slash, `./`, `../` or a final `..` |
| `Paths.CleanFixes` | Servidor/src/WebServer/mongoose.c:2428-2445 | the cleaner changes a path if and only if it is not in that normal form |
| `Paths.CleanTwice` | Servidor/src/WebServer/mongoose.c:2428-2445 | cleaning twice is cleaning once |
| `Paths.CleanIsSubsequence` | Servidor/src/WebServer/mongoose.c:2428-2445 | the result is a subsequence of the input |
| `Paths.CleanResolves` | Servidor/src/WebServer/mongoose.c:2428-2445 | the one-pass cleaner is the segment-by-segment definition: idle segments after the first go, with the slash behind them |
| `Paths.DotDotLeft` | Servidor/src/WebServer/mongoose.c:2426-2445 | a `..` segment is left after cleaning if and only if it is the first segment |
| `Paths.CleanInPlace` | Servidor/src/WebServer/mongoose.c:2428-2445 | the in-place loop leaves the cleaned string and its terminator, reading only within the terminated string |
| `Paths.ReadPath` | Servidor/src/WebServer/mongoose.c:2521-2526 | a request path is decoded, cut at the first zero and, when it starts with a slash or a dot, cleaned, in one block |
| `Glob.MatchDecides` | Servidor/src/WebServer/mongoose.c:2578-2604 | for patterns without bars an answer of zero or more is the length of a match, and -1 means that no first part matches |
| `Glob.PlainDecides` | Servidor/src/WebServer/mongoose.c:2569-2604 | the whole matcher decides the language of every pattern without bars |
| `Glob.StarIsGreedy` | Servidor/src/WebServer/mongoose.c:2584-2600 | a star takes the longest span after which the rest still matches |
| `Glob.WhichAlternative` | Servidor/src/WebServer/mongoose.c:2573-2577 | with bars the answer is that of the first alternative with a positive one, else of the last |
| `Glob.AnySound` | Servidor/src/WebServer/mongoose.c:2569-2604 | an answer of zero or more is the length of a match of some alternative |
| `Glob.ZeroIsOnly` | Servidor/src/WebServer/mongoose.c:2578-2604 | when the answer is zero every match is empty |
| `Glob.AnyComplete` | Servidor/src/WebServer/mongoose.c:2573-2577 | with bars -1 means no match, except exactly when the last alternative matches nothing, an earlier one does, and no earlier one matches more than the empty text |
| `Glob.EmptyMatchIsLost` | Servidor/src/WebServer/mongoose.c:2573-2577 | an input where a match of length zero is lost |
| `Glob.MatchPrefix` | Servidor/src/WebServer/mongoose.c:2569-2604 | the recursive matcher with its loops computes that answer and terminates |
| `Headers.ScanMeans` | Servidor/src/WebServer/mongoose.c:1752-1770 | a positive answer is the end of the earliest blank line with no forbidden octet at or before its first newline, -1 is a forbidden octet before any, zero is neither; in both directions |
| `Headers.AnswerIsStable` | Servidor/src/WebServer/mongoose.c:1748-1770 | once the answer is not zero it is the same on every extension |
| `Headers.AnswerIsPrompt` | Servidor/src/WebServer/mongoose.c:1748-1770 | a length is answered exactly from the moment the last octet of the blank line has arrived |
| `Headers.RequestLen` | Servidor/src/WebServer/mongoose.c:1752-1770 | the loop computes that answer |
| `Chunked.BodyRoundTrip` | Servidor/src/WebServer/mongoose.c:1933-1939 | a decoder for section 4.1 of RFC 7230 recovers the data with one terminator and nothing left over if and only if no empty data was sent |
| `Chunked.DechunkUpTo` | Servidor/src/WebServer/mongoose.c:1933-1939 | with an empty chunk it recovers the data before it, and the rest is left over |
| `Chunked.Codes` | Servidor/src/WebServer/mongoose.c:2742-2749 | one status line is sent if and only if the first call is not a zero status |
| `Chunked.HeadIs` | Servidor/src/WebServer/mongoose.c:2742-2767 | status and header calls, then the end of the head, send the status lines, the headers, the transfer encoding and one blank line |
| `Chunked.RunIs` | Servidor/src/WebServer/mongoose.c:2742-2775 | every run of calls and data sends one head, the chunks and one terminator; a run without calls sends nothing |
| `Chunked.ResponseRoundTrip` | Servidor/src/WebServer/mongoose.c:3132-3147 | a client that scans for the end of the headers and decodes what follows gets back the head and exactly the data |
| `Chunked.Response.SendData` | Servidor/src/WebServer/mongoose.c:2770-2775 | the state and octets after one data call |
| `Chunked.Response.Answer` | Servidor/src/WebServer/mongoose.c:3132-3147 | a whole request sends the output described by `RunIs` |

## Left out

- Sockets, SSL, CGI, proxying, file serving, WebDAV and directory listings: input and output.
- RocksDB: the database is a map whose writes succeed.
- `Localizacion` and the clock: the place of a check-in and the current time are parts of a request.
- Session tokens and decoded request parameters arrive as parts of a request; `getParametro` is not modelled.
- Logging, `main.cpp`, `eliminarUsuario` and `eliminarConversacion`: no service reaches the last two.
- JsonText.ReadWritten: the writer and the reader are modelled on values, not as loops over a buffer; the writer is modelled on objects of strings and booleans, which is all the server stores, and the text of comments, the contents of arrays and of nested objects, and the error messages are not kept.
- The scanning and printing of numbers that do not fit 64-bit integers is a parameter of the reader, `scan`, of which nothing is assumed.
- Restarting the server after an exception: a run simply goes on with the next request.
- Md5Class.MD5.Update: lengths above 2^32-65 are excluded, where the loop bound of the source wraps.
- Md5Class.Md5: the same for strings of that length.
- Server.Talk.Deserialise: the users of a conversation are values, so sharing and deletion of user objects are not captured.
- WebSocketLink.Receiver.DeliverFrame: frames that announce 2^64 octets or more, which section 5.2 of RFC 6455 excludes, and handlers that write into the buffer are not modelled.
- WebSocketLink.Receiver.DeliverAll: the same, for each frame of the stream.
- WebSocketLink.Receiver.Receive: the same, and a read for which no larger block can be had.
- Handshake.Reply: the calls that find the key among the request headers.
- Glob.MatchPrefix: patterns with a NUL, and a star as the octet after the pattern.
- Form.RequestVar: a destination that is the body, which the search of the query string writes to.
- Headers.RequestLen: lengths beyond the `int` that is returned.
- Chunked.Response.Answer: the formatting of the status line is a parameter, and calls of `mg_send_status` or `mg_send_header` after data are not part of a run.
- Percent.EncodeInto: a destination of length zero, where the source writes its terminator outside.
- `parse_date_string`, ranges, `parse_header` and multipart forms: many side conditions for little.
- Characters are those of the C locale wherever the source asks `isalnum`, `isprint` or `tolower`.
