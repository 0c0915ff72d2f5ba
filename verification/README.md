# Verified model of the web server's core

A Dafny model of the parts of the server that carry state and algorithms, and proofs about all inputs, all
request sequences and all interleavings of those parts.

| files | what they model |
|---|---|
| `Lexer`, `Spelling`, `Grammar`, `Printer`, `Layout`, `ConfigParser` | the config language: the character machine of the tokeniser, the stack-driven parser (as a function and on the heap), the printer |
| `ServingConfig`, `ServingTable`, `Routing` | the table built from a parsed config, and the dispatcher's search for the longest path |
| `FileTree`, `Decimal`, `CrudHandler`, `CrudReplies`, `CrudFailures`, `CrudBlockedIds`, `CrudInterleaving`, `CrudAtomicity`, `CrudProgress` | the CRUD store: a file tree behind an index of ids, request by request and with the critical sections interleaved |
| `WriteQueue`, `GlobalWebsocketState`, `WebsocketHandler`, `Fanout`, `Delivery`, `Membership` | the WebSocket fan-out: write queues, channels, and the system of all sessions |

`dafny verify dfyconfig.toml` checks everything.

## How to read it

Each part has a reference that does not look like the code, and a theorem that connects the two.

- **Tokeniser.** `Lexer.Reads` says what a text begins with, without a state machine (blanks, then a word, a
  comment, a quoted string written as `Escape` of its body, and so on). `LexIffReads` says that the machine
  computes exactly this, and `ParseToken`, the loop over the characters, computes what the machine does.
  `Spelling` says it once more for each kind of token with every character spelt out.
- **Parser.** The reference is a grammar, `config ::= statement*`, `statement ::= word+ (';' | '{' config '}')`,
  given by `Grammar.Flatten`, the sentence of a tree. `ParseIffSentence`: a text is accepted with a tree if
  and only if its tokens are that tree's sentence. `ConfigParser.Parse` is the same parser on objects, with a
  stack of pointers into the tree under construction. A `}` at depth zero pops the last entry; a later use of
  the empty stack is undefined behaviour and has its own outcome, `Stuck`/`Undefined`, apart from true and false;
  `StuckIff` says which texts lead to it.
- **Printer.** `RoundTripIff` is the exact condition under which printing and parsing again give the same tree. A
  printable config therefore keeps all its routes (`ServingConfig.PrintingKeepsRoutes`).
- **Table.** `ServingTable` tells the table from the statements of the file: which statement serves a path, with
  which kind of factory and block, under which name, and which status is returned.
- **Routing.** `Routing.IsRoute` is declarative longest-prefix matching with exactly one answer
  (`RouteUnique`). The stripping loop gives that answer.
- **CRUD.** The reference is one map from (entity, id) to bodies. `Answers` says how a request may change it and
  what it may reply. `Serve` runs any sequence of requests from an empty store as steps of that map, and says
  exactly when a request fails on a willing disk (`Obstructed`). `CrudInterleaving` lets requests of many threads
  take their steps inside and outside the lock in any order. There an item is stored while its file is on the disk
  and its id in the index (`CrudAtomicity.Visible`), and `EveryRequestIsAtomic` says that each request takes
  effect at exactly one of its own steps, where its status and reply satisfy `Answers`, but for one kind of
  answer to a GET by id (`Misses`). `CrudReplies` says what a client reads: status, printed id, list. A `Disk` argument says what
  the disk refuses; nothing is assumed of it.
- **WebSockets.** `Fanout` is a transition system over any number of sessions. `From(Delivered(r), x)` is
  everything from sender `x` that has been written to, queued at or posted to `r`. The central invariant of
  `Delivery` equates it with `Sent`: the messages `x` received, in that order, whose snapshot held `r` and
  whose promotion of `r` succeeded. Order, "at most once", payloads, and completeness for live recipients follow.
  `Membership` tells all of it from the events of the run: who is a member, what has been received, whom a snapshot
  finds, and so who has which message (`LiveMailIff`).

## Where the code does not do what is promised

- **Printed configs.** The lexer drops escapes and the printer does not put them back, so an accepted config
  with a backslash or its own quote inside a quoted word does not print to a text that parses to the same tree
  (`Printer.ParsedButNotPrintable`; the exact condition is `Printer.RoundTripIff`).
- **The empty stack.** A `}` that closes nothing pops the last entry of the parser's stack, and nothing checks
  for that: if a word or another `}` follows, the parser uses the top of an empty stack or pops it.
  `Grammar.StuckIff` is the exact condition on the text, `StrayBrace` the example "a;}b;".
- **Trailing slashes.** README.md line 106 of the server says that trailing slashes on serving paths are
  ignored. The request's are cut off, the configured path's are not, so a path configured with a trailing slash
  is never reached by a request for it: `ServingConfig.OwnPathReachesIff` is the exact condition,
  `SlashedPathUnreachable` the example of a single location "/a/".
- **Duplicate paths.** `SetPaths` reports a path that is used twice, but a `TestHandler` registers a path other
  than the one that is checked and can replace an earlier location's handler with status 0
  (`ServingConfig.TestHandlerOverwrites`; the exact condition is `ServingConfig.WhoOwnsAPath`).
- **Listing.** The comment on `HandleGet` promises the empty list for an entity that does not exist. After the
  last file of an entity is deleted its directory is gone and its index key is not, and the listing answers 500.
  `CrudHandler.ListFailsAfterDeleteIff` says which deletes do that, `CrudHandler.Transition` that the listing
  fails exactly then, and `CrudFailures.ListShoes` is the example. It goes on failing until a POST to the entity or
  below it (`ListingFailsUntilPost`). The root itself is an exception, because `InitRoot` makes it again first.
- **Blocked ids.** The id that POST picks is free in the index, but a node on the disk may be in the way; POST then
  answers 500. `CrudHandler.CrudHandler.HandlePost` has the exact condition. If the node is a directory of that
  number, made for a nested entity, it stays for ever, whatever is deleted: the item is never stored again
  (`CrudBlockedIds.NeverStoredAgain`), no POST gets as far as its id (`BlockedForEver`), and `LacesFirst` is an
  example in which the entity can never hold an item. Otherwise the node is a file above the entity. Exactly two
  kinds of requests release a blocked POST (`BlockReleasedIff`): the DELETE of that file's item, and the DELETE of an
  item of the entity with a smaller id.
- **GET and DELETE at once.** A GET by id looks into the index before it takes the lock; if a DELETE comes in
  between, it answers 500, neither the body nor 404. `CrudAtomicity.MissesIff` is the exact condition,
  `GetOvertakenByDelete` a run in which it happens.
- **Too big ids.** A number beyond the range of `int` as last component makes `stoi` throw, for every verb, before
  anything else happens (`CrudFailures.TooBigThrowsIff`).
- **Refused handshakes.** The destructor of a session that never joined looks up a channel that may not exist,
  and the lookup throws. `Delivery.DestructorLookupFailsIff` says exactly when, for every run;
  `Delivery.RefusedLookupFails` is a run in which it does.

## Assumptions

- Paths are canonical and have at least one component below the root; the climb of `InitRoot` ends because of
  that, and its test for an empty entity never holds. Components are compared as strings.
- One CRUD factory, no files left from an earlier process, and nothing else touches its files.
- A file that could be opened for writing is written; an operation that reports failure leaves the files as
  they are, except that `create_directories` may have made some of the directories. A read may fail at any chunk.
- Reading the index without the lock, as GET does, sees some state of it between two steps of the others.
- Handlers of one WebSocket session run one at a time. The source posts broadcasts through the strand but not
  the write completions (src/websocket_handler.cc:98-101 and 113-116), so for those this is an abstraction. A
  strand runs what is posted to it in the order of posting.
- `std::move` of the const buffer at src/global_websocket_state.cc:41 copies it, so that clearing the buffer
  afterwards does not touch the message.
- `OnBroadcast` is only reached through the strand, so its branch that posts again is dead. A session's address
  is not reused while it is in a channel; the model numbers sessions and never reuses a number.
- The calls to `remote_endpoint()` in two log lines (src/websocket_handler.cc:53 and 79), which throw if the socket
  is no longer connected, do not throw. The second is inside the promotion loop, which it would end.
- The lookups of `Remove` and `Broadcast` under the map lock are one step with what follows under the channel
  lock; since channels are never erased (`Delivery.ChannelsStay`), nothing can come in between that would matter.
  `Add`, which changes both, is two steps.

## Model

| member | source | states |
|---|---|---|
| `Lexer.ProcessEsc` | src/config_parser.cc:293-305 | the loop removes exactly the escaping backslashes |
| `Lexer.Lex` | src/config_parser.cc:87-189 | every token but the end of the text consumes something, so that parsing ends |
| `Lexer.ParseToken` | src/config_parser.cc:87-189 | the loop with its state, escape flag and one-character push-back returns the kind, value, whitespace flag and position of the machine, from any position |
| `Lexer.LexIffReads` | src/config_parser.cc:87-189 | the machine returns a lexeme if and only if the text reads as it, for all texts, including errors and the dropped unfinished word |
| `Lexer.EveryTextReads` | src/config_parser.cc:87-189 | every text has a reading: no input falls through the machine |
| `Lexer.QuotedRoundTrip` | src/config_parser.cc:132-165 | quote, escaped body, quote lexes to that body between its quotes and stops right behind, for every body and whatever follows |
| `Lexer.EscapeInjective` | src/config_parser.cc:293-305 | different bodies have different escaped forms |
| `Lexer.QuotedTextIsEscaped` | src/config_parser.cc:132-165 | conversely, the raw text of every accepted quoted token is the escape of its processed body |
| `Spelling.WordLexes` | src/config_parser.cc:126-179 | a word begins with none of space, tab, end of line, `;{}'"#`, goes on through anything but space, tab, newline and `;{}'"`, so also through `#` and carriage returns, and the character that ends it is not consumed |
| `Spelling.NormalIsWord` | src/config_parser.cc:126-179 | conversely, every plain word that is returned has that form, behind blanks |
| `Spelling.BlanksSkipped` | src/config_parser.cc:120-125 | spaces, tabs, newlines and carriage returns before a token are skipped, and only a space is noted |
| `Spelling.NothingElseSkipped` | src/config_parser.cc:98-130 | any other character begins the token |
| `Spelling.MarksLex` | src/config_parser.cc:99-119 | braces and the semicolon are tokens of their own |
| `Spelling.CommentLexes` | src/config_parser.cc:166-171 | a comment goes from `#` to the first newline or carriage return, which goes with it |
| `Spelling.UnfinishedAtEnd` | src/config_parser.cc:181-188 | a word or comment that the text does not finish is dropped |
| `Spelling.UnfinishedQuoteErrs` | src/config_parser.cc:183-186 | a quote that the text does not finish is an error |
| `Spelling.CleanQuoteLexes` | src/config_parser.cc:132-165 | a body without backslash and without its own quote is taken as it is, with its quotes |
| `Spelling.EscapeIs` | src/config_parser.cc:293-305 | the escaped form puts a backslash before each backslash and each quote of that kind, and nowhere else |
| `Spelling.BadEscapeErrs` | src/config_parser.cc:134-135 | a backslash before anything else is an error |
| `Spelling.CommentLineIgnored` | src/config_parser.cc:206-209 | to the parser a comment, and the blanks before it, are as if they were not there |
| `Spelling.GluedQuoteRejected` | src/config_parser.cc:215-229 | a quoted string right behind a word makes the parse fail, whatever follows |
| `Spelling.TabbedWordRejected` | src/config_parser.cc:215-229 | so do two words with tabs or ends of lines between them but no space |
| `Grammar.Tokens` | src/config_parser.cc:198-209 | comments are skipped and only the last token is the end of the text or an error |
| `Grammar.Step` | src/config_parser.cc:202-266 | a turn of the parser's loop keeps the stack one higher than the bracket balance, and a statement open wherever a child block will be hung |
| `Grammar.StepEmits` | src/config_parser.cc:214-252 | each token adds exactly its own symbol to the sentence prefix that the stack stands for |
| `Grammar.StepsEmit` | src/config_parser.cc:198-267 | a run of any length consumed exactly the symbols by which its stack has grown |
| `Grammar.ReadAll` | src/config_parser.cc:198-267 | in any state between two statements the parser reads any sentence of the grammar and appends exactly its tree |
| `Grammar.ParseIffSentence` | src/config_parser.cc:191-276 | a text is accepted with tree `c` if and only if its comment-free tokens are the sentence of `c`, every statement with a word, a space before each word but the first |
| `Grammar.ParseAppends` | src/config_parser.cc:191-276 | parsing into a config that already has statements accepts the same texts and appends the same tree |
| `Grammar.BalanceNeverNegative` | src/config_parser.cc:197-259 | before each token of an accepted text the stack is the bracket balance plus one and the balance was never negative |
| `Grammar.StuckIff` | src/config_parser.cc:214-252 | for every text and every config object, the empty stack is used if and only if the text begins with a complete config of at least one statement, a `}` that closes nothing, and a word or another `}` |
| `Grammar.StrayBraceSticks` | src/config_parser.cc:220-252 | for all plain words: a statement of one word, a stray `}` and another word lead to it |
| `Grammar.StrayBrace` | src/config_parser.cc:220-252 | the text "a;}b;" is an example |
| `ConfigParser.ParseRun.Feed` | src/config_parser.cc:202-266 | one turn on the heap does the step of the stack machine and keeps the shape: each stack entry is the child block of the last statement of the entry beneath, finished subtrees are untouched; a token that ends the run leaves everything as it was |
| `ConfigParser.ParseRun.StartStatement` | src/config_parser.cc:220-223 | the first word makes a new statement in the top config and nothing else |
| `ConfigParser.ParseRun.ExtendStatement` | src/config_parser.cc:223 | a further word goes to the last statement of the top config |
| `ConfigParser.ParseRun.StartChild` | src/config_parser.cc:242-244 | an empty config becomes the child of the last statement and the new top |
| `ConfigParser.ParseRun.EndChild` | src/config_parser.cc:252 | popping finishes the top config and the statement that owns it |
| `ConfigParser.ParseRun.Judge` | src/config_parser.cc:202-265 | the checks on kinds, whitespace, balance and the empty stack decide exactly as the machine does, and acceptance means that the root holds the whole tree |
| `ConfigParser.Parse` | src/config_parser.cc:191-276 | on any text and any config object, the verdict is that of the grammar's machine, and so is the tree left in the object when the verdict is true |
| `ConfigParser.NginxConfig.ToString` | src/config_parser.cc:29-35 | the printer of a config object writes the printed form of the tree it holds |
| `ConfigParser.NginxConfigStatement.ToString` | src/config_parser.cc:37-60 | likewise for one statement, with its indentation and its child block |
| `Printer.ReadBackIsPrintable` | src/config_parser.cc:87-189 | a token that reads back as itself is a plain word or a quoted string with nothing to escape |
| `Printer.PrintReads` | src/config_parser.cc:29-60 | before any following text, a printed config reads as its own sentence if and only if it is printable, and what follows is untouched |
| `Printer.RoundTripIff` | src/config_parser.cc:29-60 | for every tree and depth, parsing the printed form rebuilds exactly the tree if and only if the tree is printable |
| `Printer.ParsedButNotPrintable` | src/config_parser.cc:46 | accepted configs whose printed form does not parse back: every body with a backslash or its own quote |
| `Layout.IndentIs` | src/config_parser.cc:39-41 | two spaces for each level of depth, none for a negative depth |
| `Layout.WordsAre` | src/config_parser.cc:42-47 | one space between two words, none before the first or behind the last |
| `Layout.StatementText` | src/config_parser.cc:48-58 | the lines of a statement with and without a block |
| `Layout.PrintAppend` | src/config_parser.cc:29-35 | statements are printed one behind the other |
| `Routing.ExtractUriBasePath` | src/request_dispatcher.cc:19-37 | the result is the path before the query without its trailing slashes, or "/" |
| `Routing.BasePathUnique` | src/request_dispatcher.cc:19-37 | that description fits only one string |
| `Routing.RouteRequest` | src/request_dispatcher.cc:52-121 | the stripping loop picks the longest registered path that is the base path or a number of its leading levels, with the rest as file path, and answers 400 exactly if there is none or verb or version are not supported |
| `Routing.RouteUnique` | src/request_dispatcher.cc:76-108 | there is exactly one such answer |
| `Routing.OnlyFourVerbs` | src/request_dispatcher.cc:55-68 | verbs but GET, PUT, POST and DELETE and versions but HTTP/1.1 get 400, and those four are routed alike; a base path that is registered is served by its own factory |
| `Routing.TrailingSlashNeverExact` | src/request_dispatcher.cc:29-34 | a path registered with a trailing slash serves only targets that double that slash |
| `Routing.RootServes` | src/request_dispatcher.cc:89-108 | "/" serves the empty path and paths that begin with two slashes, nothing else |
| `ServingConfig.ServingConfig.SetPaths` | src/serving_config.cc:68-134 | status and both maps are those of registering the locations of all server blocks in order and stopping at the first clash |
| `ServingConfig.ServingConfig.SetBlockPaths` | src/serving_config.cc:89-122 | the same for one server block, from any table |
| `ServingConfig.ServingConfig.ValidatePaths` | src/serving_config.cc:136-148 | 0 if every registered path is a valid URI, else the code for an invalid one, whatever the order of the map |
| `ServingConfig.RegisterMeans` | src/serving_config.cc:92-120 | no clash is reported exactly if no location uses a path registered before; then a path is in the table exactly if some location owns it, with that location's handler |
| `ServingConfig.StatusIff` | src/serving_config.cc:68-148 | status 0 if and only if no location uses a path registered before it and all registered paths are valid |
| `ServingConfig.WhoOwnsAPath` | src/serving_config.cc:98-133 | with status 0 a location keeps its path exactly if no later `TestHandler` takes it, and "/" is bound to NotFound whatever the file says |
| `ServingConfig.SoleOwner` | src/serving_config.cc:98-120 | without `TestHandler`s each location that registers a path has it alone |
| `ServingConfig.TestHandlerOverwrites` | src/serving_config.cc:114-116 | a config with status 0 in which a location's handler has been replaced |
| `ServingConfig.OwnPathReachesIff` | src/serving_config.cc:92-120 | a request for exactly a location's path, with any query, is answered through that location, with whatever file path, if and only if the path has no trailing slash |
| `ServingConfig.SlashedPathUnreachable` | src/serving_config.cc:92-120 | with the single location "/a/" the status is 0 and requests for "/a" and "/a/" get 400 |
| `ServingTable.PathHasStatement` | src/serving_config.cc:83-120 | with status 0, the factory of every path but "/" is of the kind that the handler name of the last location statement serving the path asks for, with that statement's block |
| `ServingTable.StatementHasPath` | src/serving_config.cc:83-131 | with status 0, every location statement with a block and one of the six handler names has its path in the table, and "/" is NotFound's |
| `ServingTable.PlacesInOrder` | src/serving_config.cc:83-122 | locations are taken in the order of the file |
| `ServingTable.NameHasStatement` | src/serving_config.cc:104-105 | with status 0, the name of a path is the handler of the last location statement with a block and that path |
| `ServingTable.StatementHasName` | src/serving_config.cc:104-130 | every location statement with a block gives its path a name, and "/" has NotFound's |
| `ServingTable.NameMatchesFactory` | src/serving_config.cc:104-120 | name and factory of a path agree, but for the path of a `TestHandler` |
| `ServingTable.StatusCodes` | src/serving_config.cc:98-148 | 1 exactly if the path of a location is served by an earlier one; else 2 if some path that is served is not a slash and at least one more letter, digit or one of `/._-`; else 0 |
| `FileTree.CreateDirMeans` | src/crud_filesystem_manager.cc:11-19 | making directories touches no file, adds only directories on the way, succeeds exactly if the path is a directory in the end, and fails for sure if a file is in the way |
| `FileTree.DeleteFileMeans` | src/crud_filesystem_manager.cc:77-92 | exactly one file goes, and its directory exactly if nothing else, file or directory, is in it and the disk lets it go |
| `FileTree.CrudFileSystemManager.CreateDirectory` | src/crud_filesystem_manager.cc:11-19 | the method is the function that `CreateDirMeans` is about |
| `FileTree.CrudFileSystemManager.CreateNewFile` | src/crud_filesystem_manager.cc:21-35 | a file is created only where nothing is and its directory exists, if the disk allows, and nothing else changes |
| `FileTree.CrudFileSystemManager.ReadFile` | src/crud_filesystem_manager.cc:37-59 | the chunk loop returns the whole content for every length; it needs one chunk more than length / 1024, the last one empty if the length is a multiple |
| `FileTree.CrudFileSystemManager.WriteToFile` | src/crud_filesystem_manager.cc:61-75 | only an existing file is overwritten, if the disk allows, and nothing else changes |
| `FileTree.CrudFileSystemManager.RemoveFile` | src/crud_filesystem_manager.cc:77-92 | removing, listing the parent and pruning it is the function that `DeleteFileMeans` is about |
| `FileTree.CrudFileSystemManager.ListFiles` | src/crud_filesystem_manager.cc:94-107 | the names of exactly the regular files of the directory, each once; false and no names if it is none |
| `Decimal.ValueOfDec` | src/crud_handler.cc:59 | parsing a printed number gives it back, without leading zero, for all numbers |
| `Decimal.DecOfValueIff` | src/crud_handler.cc:59 | printing a parsed digit string gives it back if and only if it has no leading zero |
| `CrudHandler.PostedIdParsesBack` | src/crud_handler.cc:53-64 | the id of a POST reply behind the entity's path parses to the same entity and id |
| `CrudHandler.OwnPathIff` | src/crud_handler.cc:53-64 | a target addresses the file of its own path unless its id has leading zeros |
| `CrudHandler.CrudHandler.GetNextID` | src/crud_handler.cc:36-51 | the least positive integer not in the entity's set, for every finite set, although only 1..size are looked at |
| `CrudHandler.HoldsUpTo` | src/crud_handler.cc:43-50 | the pigeonhole step: a set that holds 1..n has at least n elements |
| `CrudHandler.CreateAgrees` | src/crud_handler.cc:92-103 | after file and id are in, index and files agree again and the store has one more entry |
| `CrudHandler.DeleteAgrees` | src/crud_handler.cc:176-188 | after file and id are gone, index and files agree again and the store has lost that entry only, also if the directory was pruned |
| `CrudHandler.OverwriteAgrees` | src/crud_handler.cc:132-137 | overwriting changes the body of that entry only |
| `CrudHandler.CrudHandler.HandlePost` | src/crud_handler.cc:70-106 | inserts at the least free id and replies with it, or changes nothing stored; it fails if a node is in the way of the new item, and with a willing disk only then; directories appear only on the way to it |
| `CrudHandler.CrudHandler.HandlePut` | src/crud_handler.cc:112-146 | overwrites an existing entry, 404 exactly if there is none, 400 without id |
| `CrudHandler.CrudHandler.HandleDelete` | src/crud_handler.cc:154-191 | removes an existing entry, 404 exactly if there is none, 400 without id; the entity's directory goes exactly if the disk lets it and nothing else is in it |
| `CrudHandler.CrudHandler.HandleGet` | src/crud_handler.cc:199-254 | by id the stored body or 404; without id the list of exactly the stored ids, each once; 500 exactly if the disk fails the read, or if the entity is in the index and its directory is gone |
| `CrudHandler.CrudHandler.WriteList` | src/crud_handler.cc:239-247 | the loop that appends a comma and a space to each name and cuts the last two characters writes the names joined by a comma and a space, in brackets |
| `CrudHandler.CrudHandler.InitRoot` | src/crud_handler.cc:280-299 | the climb ends, the first component becomes a directory, nothing stored changes, and only a refusing disk or a too big id makes it fail |
| `CrudHandler.CrudHandler.HandleMethod` | src/crud_handler.cc:256-278 | each verb has the effect and the answer of the reference, other verbs get 400, and an obstructed request 500 |
| `CrudHandler.HandleRequest` | src/crud_handler.cc:256-322 | one request is one step of the stored map, index and files agree afterwards, it is answered 500 if it is obstructed and with a willing disk only then, and directories and index keys change only as the request says |
| `CrudHandler.Serve` | src/crud_handler.cc:301-322 | every sequence of requests to an empty store is answered by a run of such steps, whatever the disk refuses |
| `CrudHandler.AnswerUnique` | src/crud_handler.cc:66-254 | what a request may do and answer is determined by the map alone, up to failures of the disk and the order of a listing |
| `CrudReplies.PostReplyNames` | src/crud_handler.cc:82-105 | the reply of a POST that succeeds prints a number that, behind the path of the request, is the target of the item in which its body has just been stored |
| `CrudReplies.ItemReplyNames` | src/crud_handler.cc:139-187 | the number in the reply of a PUT or DELETE that succeeds is that of the item addressed, which holds the body or is gone |
| `CrudReplies.GetReplyIs` | src/crud_handler.cc:199-222 | a GET by id that succeeds replies with the stored body, and a GET changes nothing stored |
| `CrudReplies.StatusIs` | src/crud_handler.cc:66-278 | the status of every request on a willing disk, by verb and target |
| `CrudReplies.TargetIff` | src/crud_handler.cc:53-64 | a target names an item exactly if its last component is digits only and at most 2147483647, and then that number of the rest |
| `CrudReplies.DecimalNotation` | src/crud_handler.cc:97 | ids are printed in decimal |
| `CrudReplies.DecimalReading` | src/crud_handler.cc:59 | digit strings are read in decimal |
| `CrudReplies.ListingText` | src/crud_handler.cc:239-247 | a listing is its names between brackets, with a comma and a space before each but the first |
| `CrudHandler.ListableWhileUsed` | src/crud_handler.cc:226-237 | an entity with an id left can be listed |
| `CrudHandler.ListFailsAfterDeleteIff` | src/crud_handler.cc:226-237 | a delete leaves an entity that can no longer be listed if and only if it removed the last node of its directory and the directory went |
| `CrudFailures.ListingAfterLastDelete` | src/crud_handler.cc:226-237 | for every entity but the root: a first POST, the DELETE of its item and a listing are answered OK, OK and 500 |
| `CrudFailures.ListShoes` | src/crud_handler.cc:226-237 | the same for /crud/Shoes, as calls of the request handler |
| `CrudFailures.ListingFailsUntilPost` | src/crud_handler.cc:226-237 | in every sequence of requests, a listing that fails goes on failing through every request but a POST to the entity or below it |
| `CrudFailures.PostMakesListable` | src/crud_handler.cc:82-105 | such a POST, if it succeeds, makes the entity listable again |
| `CrudFailures.TooBigThrowsIff` | src/crud_handler.cc:53-64 | for every verb, a request for an item throws if and only if its id is beyond the range of `int`, and nothing stored changes |
| `CrudBlockedIds.NumberedDirStays` | src/crud_filesystem_manager.cc:77-92 | a directory with a number for a name is the directory of no entity, and no request removes it |
| `CrudBlockedIds.NeverStoredAgain` | src/crud_handler.cc:82-95 | in every sequence of requests, once a directory stands where the body of an item would be stored, the item is never stored again |
| `CrudBlockedIds.BlockedForEver` | src/crud_handler.cc:82-95 | from then on, whatever is deleted, a POST to the entity is answered with a smaller id or with 500, and with 500 while all smaller ids are stored |
| `CrudBlockedIds.NestedEntityBlocks` | src/crud_handler.cc:82-95 | for every entity: after a first POST to an entity below it under the number 1, every POST to it is answered 500 for ever |
| `CrudBlockedIds.LacesFirst` | src/crud_handler.cc:82-95 | for example: POST to /crud/Shoes/1/laces, DELETE of its item, POST to /crud/Shoes are answered OK, OK and 500, as calls of the request handler |
| `CrudBlockedIds.BlockReleasedIff` | src/crud_handler.cc:82-95 | a blocked POST is released by a request if and only if that is a successful DELETE of an item of the entity with a smaller id, or of an item whose file stands above the entity |
| `CrudBlockedIds.BlockedUntilReleased` | src/crud_handler.cc:82-95 | in every sequence of requests, every POST to the entity is answered 500 until such a request, and that request releases it |
| `CrudInterleaving.StepKeepsInv` | src/crud_handler.cc:79-190 | every step of every handler keeps: one holder of the lock, the holder's facts, and agreement up to what the holder has still to do |
| `CrudInterleaving.AgreementInEveryRun` | src/crud_handler.cc:79-190 | in every run, index and files agree while the lock is free and differ at most in the holder's item while it is held, and every file is the file of some item |
| `CrudInterleaving.PostedIdsAreFresh` | src/crud_handler.cc:79-105 | between two POSTs that answer with the same id of an entity that item was deleted |
| `CrudInterleaving.GetMissesOnlyDeleted` | src/crud_handler.cc:204-221 | a GET that found the id and then no file: a DELETE removed it after the check, or was under way at it |
| `CrudInterleaving.NotFoundMeansAbsent` | src/crud_handler.cc:126-209 | a 404 is for an item without a file, but for a GET while a POST has written the file and not yet inserted the id |
| `CrudInterleaving.StepOnContents` | src/crud_handler.cc:79-190 | in every interleaving the files of the items change only in the creating, overwriting and removing step of a request, and there as the request promises |
| `CrudInterleaving.RootOnContents` | src/crud_handler.cc:289-297 | root directories, made without the lock, change nothing stored |
| `CrudAtomicity.EveryRequestIsAtomic` | src/crud_handler.cc:70-222 | in every interleaving a finished request took effect at exactly one of its own steps, where its status and reply answer it for what is stored at that moment, and where a failure has its cause; its other steps change nothing stored. The one exception is a GET by id that is answered 500 because its file is gone when it reads |
| `CrudAtomicity.OnlyRequestsChange` | src/crud_handler.cc:289-297 | the steps that belong to no request, arrivals and root directories, change nothing stored |
| `CrudAtomicity.MissesIff` | src/crud_handler.cc:213-221 | a GET by id that found the id in the index is answered 500 without the disk being to blame if and only if the item is not stored when it reads |
| `CrudAtomicity.GetOvertakenByDelete` | src/crud_handler.cc:204-221 | for every entity and body, a run in which that happens: POST, the look into the index, DELETE, the read |
| `CrudProgress.NobodyIsStuck` | src/crud_handler.cc:79-222 | in every run any request may arrive, every request that is due may go on, and the lock is held only by one that may go on |
| `CrudProgress.AtMostFiveSteps` | src/crud_handler.cc:79-222 | no request takes more than five steps |
| `WriteQueue.AcceptOrdered` | src/websocket_handler.cc:93-101 | `OnBroadcast` keeps: at most one write outstanding, of the queue's front, none only if the queue is empty or a write failed; the message goes last |
| `WriteQueue.CompleteOrdered` | src/websocket_handler.cc:104-117 | `OnWrite` keeps the same, and written plus queued messages are unchanged |
| `WriteQueue.NothingLostOrReordered` | src/websocket_handler.cc:86-118 | for every interleaving of the two, written plus queued are the broadcast messages in order |
| `WriteQueue.NoWriteAfterFailure` | src/websocket_handler.cc:104-108 | after a failed write nothing is ever written again and later messages pile up in order |
| `WriteQueue.FailedWriteIsLast` | src/websocket_handler.cc:104-108 | whatever came before and whatever comes after, once a write has failed nothing more is written and nothing is being written |
| `WriteQueue.WrittenCompletesFront` | src/websocket_handler.cc:110-117 | a write that succeeds completes the front of the queue, and the next is started at once |
| `WriteQueue.FrontIsBeingWritten` | src/websocket_handler.cc:93-117 | while no write has failed, the front of the queue is being written whenever there is one |
| `WebsocketHandler.WebsocketHandler.OnBroadcast` | src/websocket_handler.cc:86-102 | the handler does the queue step that `AcceptOrdered` is about |
| `WebsocketHandler.WebsocketHandler.OnWrite` | src/websocket_handler.cc:104-118 | the handler does the queue step that `CompleteOrdered` is about, and has an element to erase |
| `WebsocketHandler.WebsocketHandler.OnReceive` | src/websocket_handler.cc:64-76 | the members get the whole buffer, and then it is empty; after an error nobody gets anything |
| `WebsocketHandler.WebsocketHandler.OnConnect` | src/websocket_handler.cc:47-62 | the session joins its channel unless the handshake failed |
| `WebsocketHandler.WebsocketHandler.Destroy` | src/websocket_handler.cc:22 | the session leaves its channel, if that exists |
| `WebsocketHandler.Visit` | src/websocket_handler.cc:18-62 | a session by itself, from constructor through `Run` and `OnConnect` to destructor, leaves all memberships as they were and at most its channel behind; the destructor's lookup fails exactly if the handshake failed and the channel does not exist |
| `GlobalWebsocketState.State.Add` | src/global_websocket_state.cc:15-27 | the channel exists afterwards and has the session as one more member |
| `GlobalWebsocketState.State.Remove` | src/global_websocket_state.cc:29-37 | the session is erased from its channel and the channel stays |
| `GlobalWebsocketState.State.Snapshot` | src/global_websocket_state.cc:46-53 | the vector holds each member once and nobody else |
| `GlobalWebsocketState.State.Broadcast` | src/global_websocket_state.cc:39-62 | undisturbed, each member that can be promoted is sent to once, and nobody else |
| `Fanout.StepKeepsInv` | src/global_websocket_state.cc:15-62 | every step of any number of sessions keeps: members exist and have not been removed, joined sessions' channels exist, strong pointers in loops are exactly the pins on sessions, writers are in order |
| `Fanout.HeldLives` | src/global_websocket_state.cc:57-60 | what a promotion loop holds is alive, not removed and not freed |
| `Delivery.StepKeepsHistory` | src/global_websocket_state.cc:39-62 | every step keeps: each recipient's mail from each sender is what the sender received, filtered by snapshot and promotion; each snapshot member is tried once or still to come |
| `Delivery.DeliveredIff` | src/global_websocket_state.cc:39-62 | in every run, a message was handed to `r` if and only if its sender received it with that payload, its snapshot held `r`, and the promotion succeeded |
| `Delivery.SnapshotSettled` | src/global_websocket_state.cc:48-61 | each member found is tried unless the loop still runs, the sender is among them, and a promotion fails only for a session that is dead for ever, never for the sender |
| `Delivery.InOrderAndOnce` | src/websocket_handler.cc:78-118 | one sender's messages stand in each recipient's mail in the order received, none twice |
| `Delivery.OwnMail` | src/websocket_handler.cc:64-76 | a session's own messages all come back to it, complete and in order |
| `Delivery.NoGapWhileAlive` | src/global_websocket_state.cc:46-61 | a recipient that is alive got, from the first message of a sender on, every later one |
| `Delivery.SameChannel` | src/global_websocket_state.cc:43-53 | all mail comes from sessions of the recipient's channel |
| `Delivery.SnapshotReadsLiveMemory` | src/global_websocket_state.cc:50-52 | in every interleaving, the raw pointers in a channel are to sessions that exist |
| `Delivery.PostsToTheLivingOnly` | src/global_websocket_state.cc:57-60 | only posting changes what was handed to a session, by one message at the end, and the session is alive before and after |
| `Delivery.DeadStaysDead` | src/websocket_handler.cc:35-118 | a session without references gets neither a reference nor a message any more |
| `Delivery.OneWriteOutstanding` | src/websocket_handler.cc:86-118 | in every run of all sessions a write is outstanding exactly if the queue is not empty and no write failed, and it is of the queue's front |
| `Delivery.FailedWriteIsLastInRun` | src/websocket_handler.cc:104-108 | in every run of all sessions, a session whose write has failed never completes or starts another |
| `Delivery.WrittenCompletesFrontInRun` | src/websocket_handler.cc:110-117 | and a write that succeeds completes the front of its queue |
| `Delivery.LoopsGoOn` | src/global_websocket_state.cc:55-61 | a promotion loop sends what its session received last, to sessions of its channel, and never gets stuck |
| `Delivery.ChannelsStay` | src/global_websocket_state.cc:15-37 | a channel that exists exists for ever |
| `Delivery.LookupsSucceed` | src/global_websocket_state.cc:22-43 | the lookups of a session that got as far as `Add` never throw, now or later |
| `Delivery.ChannelExistsIff` | src/global_websocket_state.cc:15-22 | in every run a channel exists exactly if some session has been added to it |
| `Delivery.DestructorLookupFailsIff` | src/websocket_handler.cc:22 | in every run the destructor of a dead session fails to find its channel if and only if its handshake failed and no session has ever been added to that channel |
| `Delivery.RefusedLookupFails` | src/websocket_handler.cc:47-51 | the case of `DestructorLookupFailsIff` happens: a run of a single session whose handshake fails |
| `Membership.MemberIff` | src/global_websocket_state.cc:15-37 | in every run the members of a channel are exactly the sessions that have been added to it and not been removed |
| `Membership.SnapshotFindsIff` | src/global_websocket_state.cc:46-53 | the snapshot of a broadcast finds exactly those members of the sender's channel |
| `Membership.SnapshotsLast` | src/global_websocket_state.cc:46-53 | a snapshot, once taken, is never taken again or changed |
| `Membership.InboxIs` | src/websocket_handler.cc:64-76 | what a session has received is the payloads of its reads, in order |
| `Membership.ChannelIs` | src/websocket_handler.cc:35 | the channel of a session is the one it connected to |
| `Membership.LiveMailIff` | src/global_websocket_state.cc:39-62 | from the events alone: a live session has been handed a message if and only if it had been added to the sender's channel, and not removed, when the snapshot for that message was taken, unless the loop is still on its way to it |
| `Membership.MailReached` | src/global_websocket_state.cc:39-62 | whatever has been handed to any session was broadcast, with that payload, when it was a member |
| `Membership.AliveIff` | src/websocket_handler.cc:35-118 | in every run a session is alive exactly while one of its handlers can go on or a promotion loop holds it |
| `Membership.AnythingMayHappen` | src/websocket_handler.cc:24-118 | in every run no handler that is due is held up, and no payload, error or order of promotions is ruled out |
| `Membership.HandlersInOrder` | src/websocket_handler.cc:47-76 | after the handshake a session looks up its channel, joins it, reads, broadcasts, and reads again |
| `Membership.ErrorIsFinal` | src/websocket_handler.cc:47-68 | after an error of the handshake or of a read a session never joins, reads or broadcasts again |
| `Membership.FreedIff` | src/websocket_handler.cc:22 | the memory of a session is gone exactly if it was freed after its destructor |

## Left out

- server, session, start-up: sockets, threads, timers and acceptors belong to library scheduling.
- `SetPortNumber`, `IsOnlyDigits`: they read the first `listen` statement of a server block whose second word is all digits; the port is not used by anything modelled here.
- `SetPaths` with a null config: it does what an empty config does.
- Echo, health, sleep, not-found, websocket-info and static handlers, and their factories: straight-line filling of a response; the static handler's chunk loop is that of `ReadFile`.
- `GetChannels`: formatting of the channel names.
- Parsing by file name: opens a stream and calls the parser that is modelled.
- HTTP headers, status pages, log lines and the bodies of error replies: output only, but for the assumption on `remote_endpoint()`; statuses are modelled.
- `ConfigParser.Parse`: after a rejected or undefined text the half-built tree in the config object is not described, because it is only promised to be a config when the parse succeeds.
- Finite integers: ids and `bracket_balance` are unbounded in the model; only `stoi` on an id beyond int range is modelled, as a thrown exception (`TooBig`). `GetNextID` would need more than two thousand million files to leave the range.
- The order of directory entries and of hash maps: any order; the results are stated for all of them.
- Two handlers of one WebSocket session at the same time, and data races on the unlocked reads of the CRUD index: see the assumptions.
- Interleaved listings: a GET that lists an entity is not one of the interleaved requests. The source takes no lock for it and scans a directory that others change, so that its answer need not fit any moment; it is proved for requests that run alone. Requests that are malformed or whose id is too big are not either, since they end before they touch index or files.
- `Connect`: a session's number is not reused after `Free`, where an allocator may reuse the address.
- Progress in time: that the library runs every handler that is pending.
