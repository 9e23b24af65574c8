# Proofs about the certificate client

A Dafny model of the parts of the program that change a user's files, and proofs of what they keep.

- **Process lock.** Processes that open, lock, recheck, unlink and close lock files are a step
  system over paths, inodes and the owners of POSIX record locks; a crash may come at any step.
- **nginx configurations.** The lexer, the parser with one token of lookahead, the printer, the
  challenge edit with its cleanup through the disk, server selection and the SSL edit.
- **Apache configurations.** The logical lines, the three scanners, the parser, the printer, and
  the challenge edit with its cleanup through the disk.
- **Checkpoints.** Every operation is a list of primitive file operations, computed from the state
  it starts in; a crash leaves the effect of a prefix. On top of it recovery, rollback, and the
  names that make string order the order of creation.
- **Lineages.** Archive versions, live links and their repair, in the same style.
- **Renewal configurations.** The ordered maps, the INI reader and the normalising writer.
- **Include loaders.** The search over an include graph with cycles.

Classes carry the mutable state of the original (`Lexer`, `ParserState`, `Builder`, `Plugin`,
`ServerBlock`, `Search`, `Checkpoints`, `Store`, `File`); each method is proved equal to a function
of the old state, and the theorems are about these functions. Text is a sequence of runes; regular
expressions, path resolution and include matching are parameters.

## What the proofs found

Where the code does not keep a property on all inputs, the named member states the exact condition
under which it does.

- The lock excludes others exactly when no two of the requested directories clean to one path
  (`ProcessLock.ExclusionByDirectory`); the configuration and the work directory may coincide.
- A comment directly before a semicolon swallows it when an nginx configuration is printed
  (`NginxSwallow.RoundTripExactly`); comments in block headers are dropped, and so is an unclosed
  quote behind a top-level semicolon (`NginxTokens.TokensKept`).
- The nginx challenge edit is undone through the file exactly when every block that gets a marked
  line starts with a newline behind its brace and a file with an edited server has no challenge
  rewrite of its own (`NginxExact.TextUndoneExactly`, `NginxPlugin.ChallengeUndoneExactly`); on a
  server block written on one line at the end of a file the written file does not even parse
  (`NginxUndo.OneLineServerBreaks`).
- For a challenge, a file none of whose servers matches has its default servers edited, even when a
  server of another file matches (`NginxHits.EachFileDecides`).
- The two nginx server matchers disagree on a domain exactly when a trailing wildcard made of its
  beginning is read by its start instead of its end: domains that start with `.` or `*.`, and those
  that start with `~` and contain a dot (`NginxServers.MatchersAgreeExactly`,
  `NginxServers.AmbiguousStarts`). A leading wildcard outranks a trailing one exactly on domains of
  at most 98 characters (`NginxServers.NinetyEightIsTheBound`).
- The SSL edit writes two equal listens exactly when two plain listens have one host
  (`NginxSsl.NoTwinListensExactly`).
- An Apache line that ends in an escaped blank is printed with a continuing backslash
  (`ApacheNormal.BackslashBreaks`). A closing line loses what stands between its `>` and its comment,
  and is printed with the spelling of the opening tag (`ApacheText.TextKept`).
- The Apache challenge edit is undone exactly when the configuration has no markers of its own and the
  web root closes the tag of the Directory section (`ApacheUndo.ChallengeUndoneExactly`); a web root
  with an odd number of double quotes does not, the edited file does not parse, and the cleanup leaves
  it so (`ApacheUndo.QuotesInPairs`, `ApacheUndo.EditedParses`). The cleanup also rewrites the root
  configuration when the edit did not touch it (`ApachePlugin.ChallengeUndoneOnDisk`).
- A renewal value such as `x "'" "#"` loses everything from its `#` when it is loaded, saved and
  loaded again (`RenewalStorable.StorableExactly`); a key that starts with a bracket can turn its line
  into a section header, and a section named in brackets into a nested one
  (`RenewalReload.LoadedReloads`); so does such a key with a comment that ends in a bracket
  (`RenewalComments.CommentedLine`).
- A rollback that misses a backup stops there, with the newer checkpoints gone and the older ones left
  (`CheckpointDone.RollbackDropsExactly`).
- A checkpoint name that gains a digit sorts before the older ones; otherwise the order of names is
  the order of creation (`Timestamps.ListIsCreationOrder`).
- A `Save` that names only absent files records nothing (`CheckpointUndo.DroppedSaveIsNotUndone`),
  and rolling back several checkpoints at once restores the newest, not the oldest, snapshot of a
  file they share (`CheckpointRollback.SharedPathDiffers`).
- A file named `cert+5.pem` counts as version 5 of an archive (`Lineage.VersionExactly`).
- Repairing a lineage after a crash before the private key was written links to a file that does
  not exist (`LineageCrash.CrashThenRepair`).

## Model

| member | source | states |
|---|---|---|
| ProcessLock.AtMostOneHolder | internal/processlock/processlock.go:57-104 | In every interleaving of any number of processes, with crashes at any step, at most one process holds a lock path, and the holder owns the lock of the inode that the path names, provided no process requests a lock path twice |
| ProcessLock.AllOrNothing | internal/processlock/processlock.go:32-51 | When `AcquireDirs` has returned, every requested path is held, in order; when it has failed, or the process has released or crashed, it owns no lock |
| ProcessLock.RetriesAreBounded | internal/processlock/processlock.go:57-90 | A process waiting for a path has gone round the retry loop at most as often as other processes have unlinked that path since, and a failed recheck is always explained by an unlink after the open |
| ProcessLock.UncontendedAcquires | internal/processlock/processlock.go:57-90 | A lock file left behind by a crash blocks nobody: when no process owns the inode, one undisturbed turn of the loop takes the lock |
| ProcessLock.RunKeepsInvariant | internal/processlock/processlock.go:57-104 | The inductive invariant behind the exclusion holds after every run of steps |
| ProcessLock.RepeatBreaksExclusion | internal/processlock/processlock.go:32-104 | For every request that has one lock path at two positions, a run in which all other requests are distinct and two processes end up holding that path, because the later unlink of `Release` removes another process's file |
| ProcessLock.ExclusionExactly | internal/processlock/processlock.go:32-104 | All runs that make this request beside distinct ones keep the exclusion if and only if the lock paths of the request are distinct |
| ProcessLock.ExclusionByDirectory | internal/processlock/processlock.go:32-104 | In terms of the caller: if and only if no two of the directories it names clean to the same path |
| Paths.SameFile | internal/processlock/processlock.go:42 | Joining a file name to two directories gives one path if and only if the directories clean to one path |
| Paths.CleanExactly | internal/processlock/processlock.go:42 | The cleaned path leads to the same directory from every working directory, and has no component that could be left out |
| Paths.CleanAgain | internal/processlock/processlock.go:42 | Cleaning a path twice is cleaning it once |
| NginxLexer.Lexer.Next | internal/plugins/nginx/parser/lex.go:69-95 | `next` yields the next token of the remaining text and moves behind it |
| NginxLexer.Lexer.ConsumeWhitespace | internal/plugins/nginx/parser/lex.go:97-112 | Takes exactly the leading whitespace |
| NginxLexer.Lexer.ConsumeUntilNewline | internal/plugins/nginx/parser/lex.go:114-120 | Takes exactly the rest of the line |
| NginxLexer.Lexer.ConsumeQuoted | internal/plugins/nginx/parser/lex.go:122-138 | Ends behind the first unescaped closing quote, and fails exactly when there is none |
| NginxLexer.QuoteExactly | internal/plugins/nginx/parser/lex.go:122-138 | The closing quote is the first one with an even number of backslashes directly before it |
| NginxLexer.Lexer.ConsumeWord | internal/plugins/nginx/parser/lex.go:143-161 | Takes the longest word; trimming it changes nothing |
| NginxLexer.LexIsLossless | internal/plugins/nginx/parser/lex.go:69-161 | When every quote is closed, whitespace and value of all tokens put together are the source text |
| NginxLexer.LexReadsBack | internal/plugins/nginx/parser/lex.go:69-161 | The text of any token stream that can be spelled is read back as that stream |
| NginxLexer.LexIsLexable | internal/plugins/nginx/parser/lex.go:69-161 | Conversely, what the lexer yields can be spelled when every quote is closed |
| NginxLexer.LexIsSound | internal/plugins/nginx/parser/lex.go:69-161 | Every token of a text is well formed and may follow the one before it |
| NginxAst.Builder.EmitDirective | internal/plugins/nginx/parser/ast.go:64-91 | Appends exactly the text of a directive, its internal comments at their places |
| NginxAst.Builder.EmitNode | internal/plugins/nginx/parser/ast.go:104-129 | Appends exactly the text of a directive, block or comment |
| NginxAst.Builder.EmitNodes | internal/plugins/nginx/parser/ast.go:104-117 | Appends exactly the text of a body, in order |
| NginxAst.ConfigString | internal/plugins/nginx/parser/ast.go:22-29 | `String` returns the text of the whole configuration |
| NginxAst.RenderNodes | internal/plugins/nginx/parser/ast.go:64-129 | The printed text is the text of the flat token stream of the tree |
| NginxParser.ParserState.Peek | internal/plugins/nginx/parser/parse.go:25-35 | One token of lookahead, taken from the scanner at most once |
| NginxParser.ParserState.Take | internal/plugins/nginx/parser/parse.go:37-44 | Returns the pending token, or the next one, and leaves none pending |
| NginxParser.ParserState.ParseNodes | internal/plugins/nginx/parser/parse.go:48-153 | The loops with their lookahead read the body that the specification reads, or fail with its error; `NginxAccept.ParsesExactly` says which, and `NginxRoundTrip` and `NginxTokens` what the nodes are |
| NginxParser.ParseText | internal/plugins/nginx/parser/parse.go:8-17 | `Parse` returns the specified tree, or the error of the first fault in the tokens |
| NginxAccept.ParsesExactly | internal/plugins/nginx/parser/parse.go:48-153 | A text parses if and only if one pass over its tokens, which remembers the number of open braces and the name read last, finds no fault; otherwise parsing fails with the error of the first fault |
| NginxAccept.HeaderCommentIgnored | internal/plugins/nginx/parser/parse.go:92-150 | Two texts whose tokens differ in one comment between the name of a block and its brace parse to the same nodes, or fail with the same error |
| NginxAccept.HeaderCommentRemoved | internal/plugins/nginx/parser/parse.go:92-150 | From every text whose quotes are closed such a comment can be cut out, and the nodes or the error stay the same |
| NginxRoundTrip.RoundTrip | internal/plugins/nginx/parser/parse.go:48-153 | The text of every well-formed configuration parses back to that configuration |
| NginxRoundTrip.ParsedNodes | internal/plugins/nginx/parser/parse.go:48-153 | What the parser delivers can be printed before any tokens that start like those behind it in the source, unless a comment stands directly before a semicolon |
| NginxRoundTrip.ParsedRoundTrip | internal/plugins/nginx/parser/parse.go:48-153 | Printing what was parsed and parsing it again gives the same configuration when no comment stands directly before a semicolon |
| NginxSwallow.RoundTripExactly | internal/plugins/nginx/parser/ast.go:64-91 | For every source that parses, that holds exactly when no internal comment stands directly before a semicolon (such a comment swallows the semicolon when printed) |
| NginxSwallow.PrintedAgrees | internal/plugins/nginx/parser/ast.go:64-129 | The text of a parsed configuration is scanned as the tokens of its tree, up to the first comment that swallows a semicolon |
| NginxSwallow.TailCommentSwallows | internal/plugins/nginx/parser/ast.go:64-91 | A tree with an internal comment behind a last argument has a swallowed semicolon among its tokens |
| NginxTokens.NodesTrack | internal/plugins/nginx/parser/parse.go:48-153 | Where the tokens of the parsed tree first differ from those of the source, the tree has no comment |
| NginxTokens.TokensKept | internal/plugins/nginx/parser/parse.go:48-153 | For every source that parses, printing spells the kinds and values of its tokens, in order, if and only if no comment stands directly before a semicolon, no block header holds a comment and every quote is closed |
| NginxTokens.PrintedTokens | internal/plugins/nginx/parser/ast.go:64-129 | The tokens of the printed text of a well-formed configuration are those of its tree |
| NginxChallenge.RewriteUndoneExactly | internal/plugins/nginx/configurator.go:1337-1377 | On trees, stripping undoes the injected rewrites, whatever servers were chosen, exactly when the source has no challenge rewrite of its own |
| NginxChallenge.StripFixes | internal/plugins/nginx/configurator.go:1358-1377 | Stripping leaves exactly the trees without challenge rewrites alone |
| NginxChallenge.StripOrder | internal/plugins/nginx/configurator.go:1358-1377 | Filtering before descending, as the code does, is the same as filtering after |
| NginxChallenge.InjectFits | internal/plugins/nginx/configurator.go:1337-1354 | The tree with the injected rewrites is well formed, if each edited block that gets a rewrite starts a new line |
| NginxChallenge.PrependedFits | internal/plugins/nginx/configurator.go:1382-1443 | A directive put in front of a body on a line of its own keeps the body well formed |
| NginxChallenge.HttpLens | internal/plugins/nginx/configurator.go:1464-1478 | Looking up and assigning the http block obey the lens laws |
| NginxChallenge.FindHttpExactly | internal/plugins/nginx/configurator.go:1464-1478 | The block that is found is the first of all http blocks in document order |
| NginxNames.IndentExactly | internal/plugins/nginx/configurator.go:865-871 | The indent of a node is what stands behind the last line break before it |
| NginxChallenge.StripSetHttp | internal/plugins/nginx/configurator.go:1405-1461 | Stripping rewrites commutes with editing the http block |
| NginxUndo.TreeUndone | internal/plugins/nginx/configurator.go:1337-1461 | On trees, the cleanup undoes rewrites, include and bucket size together, and takes the challenge rewrites of the source with them when it looks for rewrites |
| NginxUndo.AddsHttpLine | internal/plugins/nginx/configurator.go:1382-1443 | The edit adds a line to the http block exactly when that misses the include or the bucket size |
| NginxUndo.EditedIsWellFormed | internal/plugins/nginx/configurator.go:1215-1270 | The edited configuration is well formed, so its text parses back, when every block that gets a marked line starts with a newline |
| NginxUndo.TextUndone | internal/plugins/nginx/configurator.go:1215-1332 | Then edit, print, parse, strip and print equals printing the configuration without its own challenge rewrites, and printing all of it when no server was edited and rewrites are not stripped |
| NginxMarks.MarkIsEdit | internal/plugins/nginx/configurator.go:1215-1270 | The edit is one pass over the tree that puts marked lines in front of bodies |
| NginxMarks.CleanIsStrip | internal/plugins/nginx/configurator.go:1272-1332 | The cleanup is one pass that drops directives by the kind of body they are in |
| NginxMarks.CleanForgets | internal/plugins/nginx/configurator.go:1215-1332 | The cleanup makes the same of the edited and the unedited nodes |
| NginxRank.NodesWithin | internal/plugins/nginx/parser/parse.go:48-153 | Parsing and printing any text never gives more braces, or as many and more visible text before the first |
| NginxExact.BaseDiffers | internal/plugins/nginx/configurator.go:1272-1332 | What is parsed from text behind a swallowing line and cleaned is never printed as the body that was there |
| NginxExact.SpoiledShows | internal/plugins/nginx/configurator.go:1215-1332 | When some marked line stands before text that does not start a line, or the cleanup takes away a node of the source, the cleaned print of what the edited text parses to differs from the source text |
| NginxExact.TextUndoneExactly | internal/plugins/nginx/configurator.go:1215-1332 | For every well-formed configuration: edit, print, parse, strip and print gives the print of the unedited configuration if and only if every block that gets a marked line starts with a newline and, when rewrites are stripped, the source has no challenge rewrite of its own |
| NginxUndo.OneLineServerBreaks | internal/plugins/nginx/configurator.go:1337-1354 | For a single server block with no newline behind its brace up to the end of the file, the written file no longer parses |
| NginxPlugin.Plugin.FindHTTPBlockFile | internal/plugins/nginx/configurator.go:1486-1493 | The first loaded file with an http block |
| NginxPlugin.Plugin.WriteAllFiles | internal/plugins/nginx/loader.go:110-117 | Writes the text of every loaded file |
| NginxPlugin.Plugin.InjectChallengeLocations | internal/plugins/nginx/configurator.go:1215-1270 | Leaves the specified disk and the specified notes of what to undo |
| NginxPlugin.Plugin.StripFile | internal/plugins/nginx/configurator.go:1272-1332 | Reads, strips and rewrites one file, or fails when it is missing or does not parse |
| NginxPlugin.Plugin.RemoveChallengeLocations | internal/plugins/nginx/configurator.go:1272-1332 | Leaves the specified disk, or fails as specified |
| NginxPlugin.ChallengeUndoneOnDisk | internal/plugins/nginx/configurator.go:1215-1332 | When every block that gets a marked line starts with a newline and no file with an edited server has a challenge rewrite of its own, a challenge and its cleanup leave the print of every loaded configuration in its file, and no challenge file |
| NginxPlugin.ChallengeUndoneExactly | internal/plugins/nginx/configurator.go:1215-1332 | The cleanup succeeds and leaves the print of every loaded configuration if and only if every block that gets a marked line starts with a newline and no file with an edited server has a challenge rewrite of its own |
| NginxPlugin.OtherFilesUntouched | internal/plugins/nginx/configurator.go:1215-1332 | They leave every other file as it was |
| NginxServers.ServerNameScore | internal/plugins/nginx/configurator.go:677-693 | The loop over the names computes the score of the block |
| NginxServers.MatchName | internal/plugins/nginx/configurator.go:770-826 | The loops over the wanted names decide one server name |
| NginxNames.MatchesExactly | internal/plugins/nginx/configurator.go:770-826 | A name matches if and only if it covers one of the wanted domains: as the name itself, `*.b` what ends in `.b`, `.b` also `b`, `b.*` what starts with `b.`, and `~e` what the expression matches |
| NginxNames.MatchExactly | internal/plugins/nginx/configurator.go:696-733 | Which form of a name the score takes it for, in these terms |
| NginxNames.RegexForms | internal/plugins/nginx/configurator.go:717-731 | A star behind the tilde asks for any case of letters |
| NginxNames.ServerNamesExactly | internal/plugins/nginx/configurator.go:677-693 | The names of a block are all arguments of all its `server_name` directives, in lower case and without quotes |
| NginxNames.TrimQuotesExactly | internal/plugins/nginx/configurator.go:686 | All quotes at both ends go, and nothing else |
| Text.LowerExactly | internal/plugins/nginx/configurator.go:686 | Each character keeps its letter, and none stays in upper case |
| NginxServers.ServerMatchesAny | internal/plugins/nginx/configurator.go:745-828 | The loops compute whether the block matches one of the domains |
| NginxServers.MatchersAgree | internal/plugins/nginx/configurator.go:677-828 | The two matchers agree on every block and every set of domains none of which is ambiguous |
| NginxServers.MatchersAgreeExactly | internal/plugins/nginx/configurator.go:677-828 | On a domain in lower case they agree, for all blocks and regular expressions, if and only if it is not ambiguous: no trailing wildcard made of the domain up to a dot starts like another form that does not cover the domain |
| NginxServers.AmbiguousStarts | internal/plugins/nginx/configurator.go:696-733 | A domain that does not end in `.*` is ambiguous exactly when it starts with a dot or with `*.`, or starts with a tilde and contains a dot |
| NginxServers.ExactServerWins | internal/plugins/nginx/configurator.go:594-733 | A server that lists the domain outranks every server that covers it by a wildcard or a regex |
| NginxNames.SslBreaksTies | internal/plugins/nginx/configurator.go:594-661 | Of two servers with the same score, one ranks higher exactly when it alone has SSL |
| NginxNames.SecureListen | internal/plugins/nginx/configurator.go:294-316 | A listen makes its server an HTTPS one exactly with the `ssl` flag or on port 443 |
| NginxServers.LeadingBeatsTrailing | internal/plugins/nginx/configurator.go:696-733 | A leading wildcard outranks a trailing one, even against the SSL bump, on domains of at most 98 characters |
| NginxServers.NinetyEightIsTheBound | internal/plugins/nginx/configurator.go:696-733 | On all domains of a given length every leading wildcard outranks every trailing one and the bump if and only if the length is at most 98 |
| NginxServers.BestServerIsBest | internal/plugins/nginx/configurator.go:594-661 | Nobody is chosen exactly when nobody matches; otherwise the first server with the highest score is |
| NginxServers.SelectionIsBest | internal/plugins/nginx/configurator.go:594-661 | The selection has no duplicates and consists of exactly the best servers of the matched domains |
| NginxServers.SelectBestServerPerDomain | internal/plugins/nginx/configurator.go:627-661 | The loops over the map of best servers return that selection from a list of servers |
| NginxHits.Visit | internal/plugins/nginx/configurator.go:529-543 | The recursion over the nodes collects the specified places in the tree |
| NginxHits.WalkExactly | internal/plugins/nginx/configurator.go:529-543 | A walk collects exactly the server blocks that pass its test, at any depth, in document order and so each once |
| NginxHits.IsDefaultServerOnPort | internal/plugins/nginx/configurator.go:386-436 | The loops decide whether some listen on the port, or any listen, has the default flag |
| NginxNames.ListensExactly | internal/plugins/nginx/configurator.go:406-436 | A listen is on a port when its address says so, and on port 80 when its address has no port |
| NginxHits.FindMatchingServers | internal/plugins/nginx/configurator.go:524-580 | The walks with their fallbacks return the specified places |
| NginxHits.MatchingExactly | internal/plugins/nginx/configurator.go:524-580 | In one file, exactly the server blocks whose names match; if there are none, the default servers on port 80, else on port 443, else on any port |
| NginxHits.FindMatchingServersAcrossFiles | internal/plugins/nginx/loader.go:97-105 | The loop over the files returns the hits of each, in order |
| NginxHits.EachFileDecides | internal/plugins/nginx/loader.go:97-105 | Each file falls back to its own default servers when none of its own servers matches, whatever the other files hold |
| NginxHits.SelectBestServers | internal/plugins/nginx/configurator.go:594-661 | The walks over all files and the selection return the specified hits |
| NginxHits.SelectionExactly | internal/plugins/nginx/configurator.go:594-661 | The servers that get the certificate are, over all files and at any depth and each once, exactly those that for some domain score above zero, as high as any other server, and higher than every earlier one |
| NginxSsl.ServerBlock.PromoteListens | internal/plugins/nginx/configurator.go:902-1010 | Gives every listen on the HTTPS port the `ssl` flag, in place |
| NginxSsl.ServerBlock.DeriveAddresses | internal/plugins/nginx/configurator.go:902-1010 | One SSL address for each listen on the HTTP port, in order, repeated when a host is |
| NginxSsl.ServerBlock.AddListens | internal/plugins/nginx/configurator.go:902-1010 | The whole listen edit of a server block |
| NginxSsl.ServerBlock.InsertSSLDirectives | internal/plugins/nginx/configurator.go:834-845 | The SSL edit leaves the body that `NginxSslResult.EditExactly` describes node by node |
| NginxSslResult.EditExactly | internal/plugins/nginx/configurator.go:834-1010 | What becomes of every node: the first certificate line names the chain, the first key line the private key, listens on the HTTPS port get the `ssl` flag, all others stay; and what is added: the missing lines, and one SSL listen for each plain host, or the two general ones, or a plain and an SSL one in a block without listens |
| NginxSslResult.CertificatesSet | internal/plugins/nginx/configurator.go:842-843 | The first `ssl_certificate` has exactly the chain as its argument, the first `ssl_certificate_key` exactly the key, and no other line of these names changes |
| NginxSslResult.PlainListenKept | internal/plugins/nginx/configurator.go:902-1010 | A block without a listen keeps a plain one on the HTTP port when the ports differ |
| NginxSsl.InsertIsIdempotent | internal/plugins/nginx/configurator.go:834-1010 | Inserting the SSL directives twice is inserting them once |
| NginxSsl.InsertMakesHTTPS | internal/plugins/nginx/configurator.go:294-316 | The result is an HTTPS server by the code's own criterion |
| NginxSsl.OthersUnchanged | internal/plugins/nginx/configurator.go:902-1010 | Nodes that are neither certificate lines nor listens on the HTTPS port stay as they are, in order |
| NginxSsl.HostsGainListens | internal/plugins/nginx/configurator.go:902-1010 | When no listen was on the HTTPS port, each listen on the HTTP port gains one for its host |
| NginxSsl.SslAddressReadBack | internal/plugins/nginx/configurator.go:1026-1047 | The derived address splits into the same host and the HTTPS port |
| NginxNames.SplitExactly | internal/plugins/nginx/configurator.go:1026-1047 | Host and port of every form of listen address: sockets and unclosed brackets are skipped, a bracketed host ends at its first `]:`, any other at its last colon, digits are a port, the rest is a host |
| NginxNames.FormOf | internal/plugins/nginx/configurator.go:1026-1047 | Every text has one of these forms |
| NginxSsl.NoTwinListensExactly | internal/plugins/nginx/configurator.go:902-1010 | When no listen was on the HTTPS port, the edit leaves no two equal listens on it if and only if the plain listens have distinct hosts |
| Loader.Search.LoadInto | internal/plugins/nginx/loader.go:29-49 | Adds exactly newly reached files, each once, follows what it adds, and fails only if some reachable file cannot be read; it terminates on every finite include graph |
| Loader.Search.WalkIncludes | internal/plugins/apache/loader.go:65-110 | The same for the include directives of one file |
| Loader.SearchIsExact | internal/plugins/nginx/loader.go:20-81 | With absolute paths as keys, the search returns each reachable file once and nothing else, and succeeds exactly when all of them can be read |
| Loader.LoadAllNginx | internal/plugins/nginx/loader.go:20-27 | `loadAll` of the nginx plugin has that result |
| Loader.NoFileTwice | internal/plugins/apache/loader.go:30-63 | With resolved paths as keys, no two returned files are links to one another |
| ApacheParser.LeadingWhitespace | internal/plugins/apache/parser/parser.go:416-422 | The longest prefix of blanks and tabs |
| ApacheParser.FindUnquoted | internal/plugins/apache/parser/parser.go:374-414 | The first position of the character outside quotes and escapes, or -1 |
| ApacheWords.ScanExactly | internal/plugins/apache/parser/parser.go:374-414 | It is the first one that no backslash escapes and that stands behind an even number of quotes that none escapes |
| ApacheParser.Split | internal/plugins/apache/parser/parser.go:335-372 | The index loops cut the arguments that the specification cuts |
| ApacheWords.SplitExactly | internal/plugins/apache/parser/parser.go:335-372 | The arguments are those that the line spells with blanks around them: one that begins with a quote ends with the next quote that no backslash escapes, any other before a blank |
| ApacheParser.SplitLines | internal/plugins/apache/parser/parser.go:133-160 | The logical lines, continuations joined |
| ApacheParser.TakeDirective | internal/plugins/apache/parser/parser.go:301-333 | A directive, its comment taken with the blanks before it |
| ApacheAccept.DirectiveExactly | internal/plugins/apache/parser/parser.go:301-333 | A line is read as a directive if and only if it spells its name and arguments and, from the first bare `#` on with the blanks before it, its comment |
| ApacheParser.ParserState.TakeBody | internal/plugins/apache/parser/parser.go:169-220 | Reads the body that the specification reads, or fails with it; `ApacheAccept.ParsesExactly` says which lines parse |
| ApacheParser.ParserState.TakeSection | internal/plugins/apache/parser/parser.go:222-277 | Reads one section with its closing tag, or fails with the specification |
| ApacheParser.ParseText | internal/plugins/apache/parser/parser.go:117-126 | `Parse` returns the specified nodes, or fails when the lines do not nest |
| ApacheAccept.ParsesExactly | internal/plugins/apache/parser/parser.go:169-277 | A text parses if and only if one pass over its logical lines, with the stack of the open names, finds every opening tag well formed and every closing tag to name the innermost section, up to the case of its letters |
| ApacheAccept.FoldsLetters | internal/plugins/apache/parser/parser.go:194 | Two names are taken for equal exactly when they have the same length and at each position the same character or the same letter in upper or lower case |
| ApacheAccept.SectionReads | internal/plugins/apache/parser/parser.go:222-277 | A section opened with one name and closed with another that differs in the case of letters only is read with its body, whatever follows, and keeps the first name |
| ApacheAccept.OpenExactly | internal/plugins/apache/parser/parser.go:222-258 | A line is read as an opening tag with these fields and this comment if and only if it has this form, with the `>` outside quotes |
| ApacheAccept.CloseExactly | internal/plugins/apache/parser/parser.go:279-299 | A line is read as a closing tag with this name and comment if and only if it has this form, with anything before the comment |
| ApacheParser.Builder.EmitNodes | internal/plugins/apache/parser/parser.go:32-114 | Appends exactly the text of the nodes, in order |
| ApacheScan.SplitScan | internal/plugins/apache/parser/parser.go:374-414 | Collapsing the blanks between arguments does not change what the searches for `#` and `>` find, nor their state behind text that ends in a nonblank |
| ApacheScan.SplitJoin | internal/plugins/apache/parser/parser.go:335-372 | Splitting, printing and splitting again gives the same arguments |
| ApacheScan.SplitKeepsText | internal/plugins/apache/parser/parser.go:335-372 | `splitArgs` loses nothing but blanks |
| ApacheLines.DirectiveAgain | internal/plugins/apache/parser/parser.go:301-333 | The printed line of a directive is a directive line that parses to the same directive |
| ApacheLines.OpenAgainExactly | internal/plugins/apache/parser/parser.go:222-258 | A printed opening tag parses to itself exactly if its last field does not end in an odd number of backslashes |
| ApacheLines.CloseAgain | internal/plugins/apache/parser/parser.go:279-299 | A closing tag, printed with the name of its section, closes that section with the same comment |
| ApacheFixpoint.ReadsBack | internal/plugins/apache/parser/parser.go:169-277 | Nodes whose lines parse to their own parts are read back from their lines |
| ApacheFixpoint.ParsedPrintable | internal/plugins/apache/parser/parser.go:222-277 | Parsed nodes are such nodes exactly when no section name starts with a slash and no opening tag ends in an escaping backslash |
| ApacheFixpoint.ReadBackPrintable | internal/plugins/apache/parser/parser.go:169-277 | Conversely, nodes that are read back from their lines are such nodes |
| ApacheNormal.TextMerges | internal/plugins/apache/parser/parser.go:135-160 | Splitting the text of given lines gives these lines, continued ones joined |
| ApacheNormal.LinesKept | internal/plugins/apache/parser/parser.go:49-114 | Printing keeps one line for each line read, and only a directive without a comment whose last field ends in a backslash prints a continued line |
| ApacheNormal.NormalisesExactly | internal/plugins/apache/parser/parser.go:117-422 | For every source that parses, parse after print gives the same nodes exactly if no section name starts with a slash, no opening tag ends in an odd number of backslashes, and no directive without a comment ends in a backslash |
| ApacheNormal.BackslashBreaks | internal/plugins/apache/parser/parser.go:301-333 | A one-line file that is no fixed point |
| ApacheText.CloseVisible | internal/plugins/apache/parser/parser.go:279-299 | A printed closing line keeps the visible text of the line that was read if and only if that names its section as it was opened and has nothing but a comment behind the `>` |
| ApacheText.TextKept | internal/plugins/apache/parser/parser.go:117-299 | For every source that parses, printing writes one line for each logical line, and keeps the visible text of all of them if and only if every closing line names its section as it was opened and has nothing but a comment behind the `>` |
| ApacheChallenge.StripMarkers | internal/plugins/apache/configurator.go:1113-1136 | The loops with the `skipping` counter drop each marker with the two nodes behind it, at every depth |
| ApacheChallenge.StripUndoesExactly | internal/plugins/apache/configurator.go:1009-1136 | On trees, stripping undoes appending a marker and two nodes to any set of sections if and only if no section has a marker of its own |
| ApacheChallenge.EditExactly | internal/plugins/apache/configurator.go:1040-1075 | At every place of the tree: a chosen section gets the new nodes behind its body, with the indent of its children, and no other node changes |
| ApacheChallenge.ChildIndentExactly | internal/plugins/apache/configurator.go:988-998 | The indent is that of the first node that is no comment, and four blanks without one |
| ApacheUndo.EditedParses | internal/plugins/apache/configurator.go:1009-1094 | The edited text parses to the edited configuration, the alias and the tag cut into arguments again, unless a section was edited and the web root does not close the Directory tag; then it does not parse |
| ApacheUndo.QuotesInPairs | internal/plugins/apache/configurator.go:1049-1062 | A web root without `>` closes the tag if and only if its double quotes, not counting escaped ones, come in pairs |
| ApacheUndo.NoQuoteCloses | internal/plugins/apache/configurator.go:1049-1062 | Every web root without double quotes closes the tag, whatever blanks, backslashes and brackets it has |
| ApacheUndo.StrippedLess | internal/plugins/apache/configurator.go:1113-1136 | When the source has markers of its own, stripping the edited tree leaves fewer comments than the source has |
| ApacheUndo.ChallengeUndoneExactly | internal/plugins/apache/configurator.go:1009-1136 | For every configuration that is a fixed point of printing and parsing, every set of sections and every web root on one line: what the cleanup writes is the text of the configuration if and only if that has no marker of its own and, when a section was edited, the web root closes the Directory tag |
| ApachePlugin.Plugin.InjectChallengeAliases | internal/plugins/apache/configurator.go:1009-1094 | Writes exactly the files with edited virtual hosts and remembers them and the root configuration |
| ApachePlugin.Plugin.RemoveChallengeAliases | internal/plugins/apache/configurator.go:1097-1108 | Reads, strips and rewrites one file, or leaves it when it is missing or does not parse |
| ApachePlugin.Plugin.Cleanup | internal/plugins/apache/configurator.go:86-120 | Strips each remembered file once, and the root configuration |
| ApachePlugin.ChallengeUndoneOnDisk | internal/plugins/apache/configurator.go:86-120 | After a challenge and its cleanup a file with chosen hosts holds the print of its configuration if and only if that has no marker of its own and the web root closes the tag of the sections that were edited; any other file is as it was, except that the root configuration is stripped and printed |
| ApachePlugin.OtherFilesUntouched | internal/plugins/apache/configurator.go:1009-1108 | Every other file is as it was |
| Checkpoint.Checkpoints.Save | internal/checkpoint/checkpoint.go:110-176 | `Save` performs exactly the specified list of primitive steps |
| Checkpoint.Checkpoints.MarkClean | internal/checkpoint/checkpoint.go:60-80 | Performs the steps of `MarkClean`; `CheckpointDone.MarkCleanDone` says what they leave |
| CheckpointDone.MarkCleanDone | internal/checkpoint/checkpoint.go:60-80 | With the marker set, the open directory becomes the newest checkpoint, no file changes, the marker goes, and a recovery behind it changes nothing; without the marker, or without a directory, the log stays as it is |
| CheckpointDone.SaveDone | internal/checkpoint/checkpoint.go:110-176 | A finished `Save` that finds a file sets the marker and records exactly the named paths besides those recorded before |
| CheckpointDone.InstallFinalised | internal/checkpoint/checkpoint.go:60-176 | `Save` of paths of which one exists, any writes, and `MarkClean` make the list of checkpoints longer by one and keep the files, and recovery changes none of them |
| CheckpointDone.InstallRolledBack | internal/checkpoint/checkpoint.go:60-310 | Rolling that back gives every saved path what it was, present or absent, and leaves every other file as written |
| CheckpointDone.InFlightDone | internal/checkpoint/checkpoint.go:84-93 | `RestoreInFlight` undoes the open directory and removes it when this process has marked it, and otherwise only clears the marker |
| Checkpoint.Checkpoints.RestoreInFlight | internal/checkpoint/checkpoint.go:84-93 | Clears the marker, then restores the directory it named |
| Checkpoint.Checkpoints.RecoverInterrupted | internal/checkpoint/checkpoint.go:98-104 | Restores a directory left over by an earlier process |
| Checkpoint.Checkpoints.RestoreDir | internal/checkpoint/checkpoint.go:314-332 | Copies back in order, up to a missing backup, then deletes the new files, then removes the directory |
| Checkpoint.Checkpoints.Restore | internal/checkpoint/checkpoint.go:265-310 | Performs exactly the specified steps, newest checkpoint first, lists every file it changed, and succeeds exactly when there is something to roll back and no round misses a backup |
| CheckpointDone.RollbackDropsExactly | internal/checkpoint/checkpoint.go:265-310 | The newest n checkpoints, or all when there are fewer, are dropped if and only if each path has its backup in the newest of them that lists it; otherwise some stay |
| CheckpointDone.RollbackClamped | internal/checkpoint/checkpoint.go:276-278 | Asking for more checkpoints than there are is asking for all of them |
| CheckpointDone.RollbackOfAll | internal/checkpoint/checkpoint.go:265-310 | That leaves no checkpoint and, at every path, what rolling all of them back leads to |
| Checkpoint.BackupIndex | internal/checkpoint/checkpoint.go:140-150 | Backups with different indexes never share a name |
| Checkpoint.BaseExactly | internal/checkpoint/checkpoint.go:140 | The base name is what stands behind the last slash |
| CheckpointUndo.SaveKeepsUndo | internal/checkpoint/checkpoint.go:110-176 | Wherever `Save` is stopped, recovery would restore what it would have restored before |
| CheckpointUndo.SaveRecords | internal/checkpoint/checkpoint.go:152-158 | A finished `Save` records every path it names if one of them exists or an earlier call listed a file, and otherwise nothing |
| CheckpointUndo.RestoreDirCut | internal/checkpoint/checkpoint.go:314-332 | A recovery stopped before its end would restore the same when it starts again |
| CheckpointUndo.CrashSafeUndo | internal/checkpoint/checkpoint.go:98-176 | After any sequence of calls, each stopped anywhere, and any writes, recovery gives every recorded path what it was when it was first recorded, and touches nothing else |
| CheckpointUndo.DroppedSaveIsNotUndone | internal/checkpoint/checkpoint.go:152-158 | A `Save` of an absent file with no earlier one records nothing, so what is written to it stays |
| CheckpointRollback.RollbackIsStack | internal/checkpoint/checkpoint.go:239-310 | Over every sequence of calls, each stopped anywhere, with writes only to files of the newest checkpoint, k single rollbacks restore the files as they were when the k-th newest checkpoint was opened |
| CheckpointRollback.RollbackAgreesExactly | internal/checkpoint/checkpoint.go:280-309 | One rollback of n checkpoints equals n single ones exactly when, at every path, the newest snapshot equals the oldest and no record between them says new, or the oldest record says new |
| CheckpointRollback.DisjointAgree | internal/checkpoint/checkpoint.go:280-309 | Checkpoints that share no FILEPATHS entry satisfy this |
| CheckpointRollback.SharedPathDiffers | internal/checkpoint/checkpoint.go:280-298 | For a path with two different snapshots, rolling back both at once leaves the newer contents |
| Timestamps.NextTimestamp | internal/checkpoint/checkpoint.go:182-207 | The scan of the directory and the choice of the name |
| Timestamps.FormatTimeValue | internal/checkpoint/checkpoint.go:210-214 | The name of a moment has six places and the value of its seconds and microseconds |
| Timestamps.PlusOneAdds | internal/checkpoint/checkpoint.go:199-201 | The name after a later one is exactly one second on |
| Timestamps.PlusHundredthAdds | internal/checkpoint/checkpoint.go:202-205 | The name after an equal one is exactly a hundredth of a second on |
| Timestamps.NextIsGreatest | internal/checkpoint/checkpoint.go:182-207 | The chosen name sorts after every existing one, in all branches, exactly when no addition runs into a new digit |
| Timestamps.ListIsCreationOrder | internal/checkpoint/checkpoint.go:239-260 | However the clock behaves, the names ascend in the order of creation, and sorting them changes nothing, if and only if no addition runs into a new digit |
| Timestamps.RolloverBreaksOrder | internal/checkpoint/checkpoint.go:199-201 | An example in which the new name sorts first |
| Lineage.Store.HighestVersion | internal/storage/lineage.go:52-68 | The loop finds the highest version in the archive |
| Lineage.VersionReadBack | internal/storage/lineage.go:72-98 | The version is read back from the name of an archive file of any kind |
| Lineage.VersionExactly | internal/storage/lineage.go:72-98 | Exactly the names made of a kind, a number with or without a plus sign, and `.pem` have a positive version, which is this number |
| Lineage.ArchiveNameInjective | internal/storage/lineage.go:101-110 | Two archive files with one name have one kind and one version |
| Lineage.Store.ReplaceSymlink | internal/storage/lineage.go:302-316 | Replaces a link in three steps, so that the old one stays until the new one is there |
| Lineage.Store.Write | internal/storage/lineage.go:137-233 | Performs exactly the specified steps and returns the next version |
| Lineage.Store.RecoverPreviousLinks | internal/storage/lineage.go:359-385 | Gives each kind with a `previous_` link its old target back |
| Lineage.Store.EnsureDeployed | internal/storage/lineage.go:250-298 | Performs exactly the specified steps and returns the version linked to, or 0 |
| Lineage.NoFileWrittenTwice | internal/storage/lineage.go:137-210 | Over every sequence of calls, each stopped anywhere, no archive file is written twice |
| LineageCrash.WriteDeploys | internal/storage/lineage.go:137-233 | A finished `Write` leaves all four links on its version, which is the highest |
| LineageCrash.RepairDeploys | internal/storage/lineage.go:250-298 | A finished `EnsureDeployed` leaves all four links on the highest version, no `previous_` link, and the archive as it was |
| LineageCrash.CrashThenRepair | internal/storage/lineage.go:250-298 | After a crash in `Write` behind its first file, and any interrupted repairs, a repair reaches the links of the finished `Write`; the archive is that of the finished `Write`, and no link dangles, exactly when the crash came after the private key |
| LineageCrash.WriteKeepsLinks | internal/storage/lineage.go:212-224 | `Write` stopped anywhere keeps every live link, on its old target or the new version |
| LineageCrash.WriteNeverDangles | internal/storage/lineage.go:179-224 | At no point of `Write` does a live link dangle, if none did before |
| LineageCrash.RepairKeepsKinds | internal/storage/lineage.go:277-296 | `EnsureDeployed` stopped anywhere never loses the last link of a kind |
| RenewalValues.FormatIdempotent | internal/storage/renewalconf/renewalconf.go:274-319 | A written value has no blanks at its ends, and writing it again changes nothing |
| RenewalValues.ListKept | internal/storage/renewalconf/renewalconf.go:101-116 | Writing a value keeps what `List` reads from it, exactly unless it is a quoted scalar with blanks around the quotes |
| RenewalValues.ListReadBack | internal/storage/renewalconf/renewalconf.go:101-116 | Trimmed, unquoted, nonempty items without commas, joined, are read back as these items |
| RenewalValues.QuotedItem | internal/storage/renewalconf/renewalconf.go:101-116 | An item in quotes is what stands between them without whitespace at its ends |
| RenewalValues.ScalarKept | internal/storage/renewalconf/renewalconf.go:274-327 | Taking the quotes off a written scalar gives it back, blanks at its ends included |
| RenewalValues.StripInlineComment | internal/storage/renewalconf/renewalconf.go:425-442 | The loop computes the cut that `RenewalComments.StripExactly` describes |
| RenewalValues.CommentGone | internal/storage/renewalconf/renewalconf.go:425-442 | The result has no bare `#`, and a value is unchanged exactly when it had none |
| RenewalComments.StripExactly | internal/storage/renewalconf/renewalconf.go:425-442 | The result is the text before the first `#` that is neither quoted nor escaped, without the blanks and tabs at its end, and the value itself without such a `#` |
| RenewalComments.CommentedLine | internal/storage/renewalconf/renewalconf.go:168-186 | A line with a key, a trimmed value whose quotes are closed and without a bare `#`, and a comment is read as this key with this value, unless it has the brackets of a header |
| RenewalComments.CommentedRead | internal/storage/renewalconf/renewalconf.go:145-205 | Wherever it stands in a file, it enters that pair |
| RenewalConf.File.SetTop | internal/storage/renewalconf/renewalconf.go:331-336 | Sets a key in its place, or at the end when it is new |
| RenewalConf.File.SetParam | internal/storage/renewalconf/renewalconf.go:339-344 | The same in [renewalparams] |
| RenewalConf.File.DeleteParam | internal/storage/renewalconf/renewalconf.go:348-360 | Removes the key and keeps the order of the others |
| RenewalConf.File.SetNested | internal/storage/renewalconf/renewalconf.go:364-373 | Sets a key in a nested section, created at the end when it is missing |
| RenewalConf.File.SetSection | internal/storage/renewalconf/renewalconf.go:377-386 | The same for another section |
| RenewalConf.File.Load | internal/storage/renewalconf/renewalconf.go:133-212 | The scanning loop builds the contents that `RenewalReading.LoadedValue` describes, or fails as `RenewalReading.LoadsExactly` says |
| RenewalReading.LinesExactly | internal/storage/renewalconf/renewalconf.go:142-143 | The text is read line by line; a last line counts without its break, and a line of 64 KiB or more is an error |
| RenewalReading.ClassifyExactly | internal/storage/renewalconf/renewalconf.go:144-186 | What a line says by its text: nothing, a comment, a nested section, a section, a key with its value, or an error |
| RenewalReading.LoadsExactly | internal/storage/renewalconf/renewalconf.go:133-212 | A file is refused exactly when a line does not fit the buffer or says nothing that is known |
| RenewalReading.LoadedValue | internal/storage/renewalconf/renewalconf.go:186-205 | A key of a table has the last value that a line of this table gives it, and no other key has one |
| RenewalConf.File.EmitKV | internal/storage/renewalconf/renewalconf.go:240-261 | The lines of one ordered map, in order |
| RenewalConf.File.Save | internal/storage/renewalconf/renewalconf.go:215-238 | The text of the whole file |
| RenewalStorable.StorableExactly | internal/storage/renewalconf/renewalconf.go:274-319 | Told from the value itself when its written form is on one line with each `#` in quotes: for quoted values, for lists, for scalars without a double quote, and for scalars that are written in single quotes |
| RenewalStorable.BracketEndExactly | internal/storage/renewalconf/renewalconf.go:274-319 | Told from the value itself when its written form ends in a bracket: for a list of several items by the last one, for a plain scalar by its end, and never for a quoted value |
| RenewalStorable.ListHash | internal/storage/renewalconf/renewalconf.go:274-319 | Formatting a list neither hides nor bares a comment |
| RenewalReload.ReloadsExactly | internal/storage/renewalconf/renewalconf.go:133-261 | For contents with trimmed names and keys on one line, keys without `=` and a leading `#`, and no pairs under an empty name: loading a saved file gives the same sections, keys and orders, each value as `formatValue` writes it, if and only if every written value is on one line with each `#` in quotes, no key starts with a bracket before a value that is written with one at its end, no section name stands in brackets, and every written line fits the 64 KiB buffer of the scanner |
| RenewalReload.LoadedIsClean | internal/storage/renewalconf/renewalconf.go:133-212 | Whatever the reader delivers meets these requirements on names and keys |
| RenewalReload.LoadedReloads | internal/storage/renewalconf/renewalconf.go:133-261 | For everything that was itself loaded: if and only if no unquoted scalar has a `#` that the single quotes it is written in lay bare, no key starts with a bracket before a value that is written with one at its end, no section name stands in brackets, and every written line fits the buffer of the scanner |
| RenewalReload.SavesTheSame | internal/storage/renewalconf/renewalconf.go:215-319 | Saving what was loaded writes the same text |
| Decimal.ValueOfItoa | internal/storage/lineage.go:101-110 | A decimal numeral reads back as its number |

## Left out

- ACME traffic, DNS providers, OCSP, renewal information and hooks: network clients and subprocesses.
- Certificates, keys and PEM: contents are opaque text, and the validation before `Write` is taken as passed.
- Flags, prompts, logging, reload commands, and the merging of renewal configurations into the settings.
- File modes, owners, times and fsync; single file operations are atomic, so a partial append or a partial removal of a directory tree is not modelled.
- Errors are told apart from success, but their texts and line numbers are not modelled.
- Text is runes, so invalid UTF-8 is not covered; case is folded in ASCII only; version numbers and integers are unbounded.
- Syntax trees are values: that two pointers may name one node is not modelled, and edits of trees are functions or methods on one block.
- Lineage.Store.Write: the README files, the live directory and the directory modes that it also makes, and the validation of the PEM texts, are not modelled.
- LineageCrash.RepairDeploys: the live directory exists.
- ProcessLock.AtMostOneHolder: lock paths are cleaned as text; symbolic links that give one file two names are not modelled.
- Checkpoint.Checkpoints.Save: paths are absolute, without line breaks and without blanks at their ends, so that the lines of FILEPATHS read back; notes in CHANGES_SINCE are not modelled.
- CheckpointRollback.RollbackIsStack: the finalised checkpoints are a sequence in the order of `List`, which `Timestamps.ListIsCreationOrder` shows to be the order of creation.
- Timestamps.NextIsGreatest: names are decimals and the additions are exact; the rounding of floating point is not modelled.
- RenewalConf.File.EmitKV: the map has no key outside its order, which every method of the class keeps; the sorted leftovers of other code are not modelled.
- NginxPlugin.Plugin.InjectChallengeLocations: the loaded files are a parameter, and the matched servers an arbitrary set of places in each, of which `NginxHits.EachFileDecides` gives the one that is chosen; the checkpoint it takes and failing writes are not modelled.
- ApachePlugin.Plugin.InjectChallengeAliases: the loaded files and the virtual hosts to edit are parameters, the latter an arbitrary set of positions; the checkpoint it takes and failing writes are not modelled.
- Loader.Search.LoadInto: reading a directory entry and resolving a path are parameters.
- Loader.Search.WalkIncludes: the files that an include names are a parameter in place of globbing.
- ApacheUndo.ChallengeUndoneExactly: the configuration is a fixed point, which `ApacheNormal.NormalisesExactly` decides, and the web root has no line break; with one, the appended lines can be cut or joined in any way.
- Apache SSL edits, virtual host cloning and redirects: lists of independent edits.
- Globbing, relative includes and symbolic links: the loaders take the include graph and the key of a file as parameters.
