# Redis 7.2.4: proofs about its hard parts

A model of six parts of the Redis 7.2.4 server, with proofs in Dafny.

- **Checksums** (`Slicing`, `Crc64Words`, `Gf2`, `Crc64Poly`, `Crcspeed`,
  `Crc64`, `Memory`): the CRC-64 that consumes eight bytes per step from
  generated tables computes the bit-at-a-time CRC, in both byte orders and at
  every alignment, and that is the remainder after division by the Jones
  polynomial.
- **Access control** (`AclRules`, `AclMeaning`, `AclText`, `AclParse`,
  `AclSelector`): a selector keeps a bitmap and a compacted rule text. Every
  rule grants and takes away exactly what its text says, and replaying the
  text always rebuilds the bitmap, so the run-time check that panics otherwise
  cannot fail.
- **Arguments on a line** (`Sds`, `SdsArgs`): splitting a line with its quotes
  and escapes, and printing a string so that it can be read back.
- **The append-only file**: command format and loader (`AofFormat`,
  `AofLoader`, `AofAnnotated`), feeding (`AofFeed`), flushing (`AofFlush`), background fsync
  (`AofFsync`), the rewrite stream (`AofDataset`, `AofRewrite`), the manifest
  (`AofManifest`, `AofManifestText`, `AofManifestRead`), the crash-safe protocol (`AofProtocol`,
  `AofMemory`, `AofServer`), and all of it together: databases, bytes on disk,
  rewrites and crashes, also in the middle of a write (`AofDataModel`,
  `AofTorn`, `AofRedis`).
- **Bitmap commands** (`Bits`, `BitCount`, `BitPos`, `BitField`, `BitOp`):
  BITCOUNT, BITPOS, BITFIELD and BITOP against one-line specifications.
- **Blocking on keys** (`BlockIndex`, `BlockWorld`, `Blocked`): the two-way
  index of clients and keys, its counters, what serving the waiting clients
  does to them, and the ready queue that is drained while new signals arrive.

`Wrappers` holds the option type. Classes stand for the structures the server
changes in place; their methods follow the C functions and are proved against
pure functions and predicates, about which the lemmas speak. System calls,
forks, clocks and the outcome of commands are parameters, so that every claim
holds for all of their outcomes. In `AofServer` every disk action first spends
one unit of a budget, and the process is dead when none is left: a claim for
every budget is a claim for a crash at every point. In `AofFsync` and `Blocked`
the steps between which other work may happen are methods of their own, and the
runs are arbitrary sequences of them. A proof hides the definitions that it does
not need.

## Findings

Nine properties hold only under a condition. Each condition is proved to be
exact, and a concrete input shows that the property fails without it.

- A short write that is undone by truncation leaves the write position of a
  file that is not in append mode past its end. INCR files opened for a
  rewrite (redis-7.2.4/src/aof.c:809) are not in append mode; those opened on
  start (redis-7.2.4/src/aof.c:746) are. Over a whole run, file and buffer stay
  what was fed exactly if the file is in append mode or no bytes are written to
  stay after others were undone: `AofFlush.RunSound`, `AofFlush.GapInRun`; for
  a single write `AofFlush.WriteAppends` and `AofFlush.GapAfterUndo`.
- A rewrite goes on after its flush fell short (redis-7.2.4/src/aof.c:2440).
  What is left in the buffer is in the snapshot and is written to the new INCR
  file as well, so after the rewrite the disk says what was flushed exactly if
  the buffer was empty at the fork: `AofServer.Server.ChildDone`,
  `AofProtocol.LeftoverBuffer`, `AofServer.LeftoverExample`. At the head of the
  new file such a command also lacks the SELECT that preceded it:
  `AofDataModel.LeftoverDatabase`.
- A commit of the manifest that fails after its rename
  (redis-7.2.4/src/aof.c:580) makes the server delete a BASE file that the
  manifest on disk names (redis-7.2.4/src/aof.c:2666). As long as writes reach
  the file feed by feed, exactly this breaks the disk:
  `AofServer.Server.CommitRewrite`, `AofServer.LateExample`. The next manifest
  that is written repairs it.
- A write that is torn at a byte may leave a file that is truncated by the next
  start (redis-7.2.4/src/aof.c:1606), which is accepted only for the last file
  of the manifest (redis-7.2.4/src/aof.c:1746-1749). After a switch to a new
  INCR file whose commit was reported to have failed late, the file that is
  written is not the last one. `AofTorn.TornRestart` says exactly when the next
  start loads, `AofTorn.SplitBetweenFiles` when a buffer that was cut in two
  between files does, and `AofTorn.NotLastExample` is a manifest that does not.
- A short read inside a transaction truncates the file behind the last whole
  command and leaves the MULTI in it (redis-7.2.4/src/aof.c:1573); only the end
  of the file inside a transaction goes back to before the MULTI
  (redis-7.2.4/src/aof.c:1585). What is written to the file afterwards is queued
  by the next load and cut away. The file can be written to exactly if the cut
  was not inside a command of an open transaction: `AofTorn.KeptSound`,
  `AofTorn.BehindOpenTransaction`, `AofTorn.OpenTransactionExample`.
- The manifest quotes a name only if sdsneedsrepr asks for it
  (redis-7.2.4/src/aof.c:124), which does not mind single quotes, while
  sdssplitargs does. The configuration allows a name with a single quote
  (redis-7.2.4/src/config.c:2353-2363); if it has nothing else that asks for
  quotes, every manifest written with it is refused on the next start:
  `AofManifestText.ManifestRoundTrip`, `AofManifestText.QuotedNameExample`.
- Retiring all INCR files while none is open for writing
  (redis-7.2.4/src/aof.c:505) leaves a manifest whose reload forgets the last
  INCR number, so that the name of a retired file can be given out again:
  `AofManifestText.RetiredReload`, `AofManifestText.RetiredExample`.
- BITFIELD SET with saturation stores the largest value instead of the smallest
  for very negative numbers in signed fields of fewer than 64 bits. The comment
  at redis-7.2.4/src/bitops.c:329-332 says that no overflow happens in the
  values that are used; the proofs follow the code. See `BitField.SetExact` and
  `BitField.VeryNegative`.
- BITFIELD SET with saturation stores the largest value instead of zero for
  negative numbers in unsigned fields (redis-7.2.4/src/bitops.c:1198-1200). See
  `BitField.SetUnsignedExact` and `BitField.NegativeUnsigned`.

## Model

| member | source | states |
|---|---|---|
| Slicing.SteppedWord | redis-7.2.4/src/crcspeed.c:120-135 | feeding a word at once, past a register it was added to, equals feeding its symbols one by one, for any linear step that slides |
| Slicing.SlicedWord | redis-7.2.4/src/crcspeed.c:122-133 | the word step is the sum of one table slice per symbol, each slice iterated as often as symbols follow it |
| Slicing.IterLinear | redis-7.2.4/src/crcspeed.c:37-49 | a linear step stays linear however often it is iterated, which is what makes the eight tables sums |
| Crc64Words.ReflectInvolution | redis-7.2.4/src/crc64.c:69-78 | reversing the 64 bits of a word twice gives the word back |
| Crc64Words.ReflectBit | redis-7.2.4/src/crc64.c:69-78 | bit k of the reversed word is bit 63 - k of the word |
| Crc64Words.MirrorByte | redis-7.2.4/src/crc64.c:88-111 | eight most-significant-first bit steps of the slow register are, reflected, one byte step of the table-driven register |
| Crc64Words.Down8Linear | redis-7.2.4/src/crcspeed.c:37-49 | the byte step is linear over exclusive or |
| Crc64Words.Down8Slides | redis-7.2.4/src/crcspeed.c:120-135 | the byte step consumes the low byte and slides the rest of the register down |
| Gf2.RemainderUnique | redis-7.2.4/src/crc64.c:88-111 | a polynomial over two elements has only one remainder modulo a polynomial of degree 64 |
| Gf2.ProductDegree | redis-7.2.4/src/crc64.c:88-111 | a multiple of a polynomial of degree 64 is zero or has a term of at least that degree |
| Crc64Poly.PolyIsJones | redis-7.2.4/src/crc64.c:33 | the constant is the polynomial with these 33 exponents, without the highest |
| Crc64Poly.PolyBit | redis-7.2.4/src/crc64.c:88-111 | a power has a coefficient exactly if the bit at its place is set |
| Crc64Poly.FeedPoly | redis-7.2.4/src/crc64.c:95-107 | one round multiplies the register by x, adds the message bit at power 64 and takes away the Jones polynomial if power 64 is left |
| Crc64Poly.FedIsRemainder | redis-7.2.4/src/crc64.c:88-111 | after any bits from any register, the register is the remainder |
| Crcspeed.Rev8Involution | redis-7.2.4/src/crcspeed.c:71-83 | reversing the bytes of a word twice gives the word back |
| Crcspeed.LittleInit | redis-7.2.4/src/crcspeed.c:33-50 | after filling, entry [k][b] is the byte step iterated k + 1 times on b, for all eight tables and all bytes |
| Crcspeed.LittleWord | redis-7.2.4/src/crcspeed.c:120-135 | eight table lookups advance the register by exactly eight byte steps |
| Crcspeed.Little | redis-7.2.4/src/crcspeed.c:112-144 | for every register, buffer, length and alignment the three loops compute the byte steps of the whole buffer |
| Crcspeed.BigInit | redis-7.2.4/src/crcspeed.c:87-95 | the big-endian tables hold the byte-reversed entries of the little-endian ones |
| Crcspeed.BigByte | redis-7.2.4/src/crcspeed.c:183-213 | one big-endian byte step is the byte-reversed little-endian one |
| Crcspeed.BigWord | redis-7.2.4/src/crcspeed.c:183-213 | eight big-endian lookups are the byte-reversed word step |
| Crcspeed.Big | redis-7.2.4/src/crcspeed.c:183-213 | the big-endian routine returns the same value as the byte steps, for every register, buffer, length and alignment |
| Crc64.CrcReflect | redis-7.2.4/src/crc64.c:69-78 | the shift loop returns the low data_len bits reversed; for length 0 the lowest bit |
| Crc64.SlowCrc64 | redis-7.2.4/src/crc64.c:88-111 | the bit-at-a-time loops leave, reflected, the remainder of the message polynomial after division by the Jones polynomial, behind whatever the register held |
| Crc64.Crc64IsRemainder | redis-7.2.4/src/crc64.c:88-111 | for every register and message, the reflected checksum is the polynomial of degree below 64 that differs from the message, raised by 64, and the register, raised above the message, by a multiple of the Jones polynomial |
| Crc64.CheckValue | redis-7.2.4/src/crc64.c:133-138 | the checksum of the digits from 1 to 9 is e9c6d914c4b8d9ca |
| Crc64.MirrorRegister | redis-7.2.4/src/crc64.c:88-111 | the reflected slow register equals the table-driven register after every prefix of the data |
| Crc64.FastIsSlow | redis-7.2.4/src/crcspeed.c:112-144 | for every seed and buffer the byte-step register equals the slow CRC seeded with the reflected seed |
| Crc64.TwoCalls | redis-7.2.4/src/crc64.c:121-123 | checksumming a and then b in two calls equals checksumming a + b in one |
| Crc64.OneByteStep | redis-7.2.4/src/crc64.c:116-118 | the slow CRC of one byte from zero is the byte step, so it generates the tables |
| Crc64.Crc64Init | redis-7.2.4/src/crc64.c:116-118 | the tables are initialised for either byte order |
| Crc64.Compute | redis-7.2.4/src/crc64.c:121-123 | crc64 returns the slow CRC seeded with the reflected seed, in either byte order and at every alignment, and so the same remainder |
| AclRules.SmallTable | redis-7.2.4/src/acl.c:1501-1526 | tables with good names and ids exist, with a command that takes first arguments and one that has subcommands |
| AclRules.MatchedIsCovered | redis-7.2.4/src/acl.c:550-592 | a rule that the text comparison drops writes no permission that the newer rule does not overwrite |
| AclRules.CompactAgrees | redis-7.2.4/src/acl.c:550-604 | replaying without the dropped rules differs from replaying all rules only where the newer rule writes |
| AclRules.CompactReplays | redis-7.2.4/src/acl.c:596-604 | kept rules plus the new rule replay to exactly the permissions of applying the new rule to the replay of all rules |
| AclRules.StepConsistent | redis-7.2.4/src/acl.c:1010-1180 | every rule keeps the state in which the kept rules rebuild bitmap and first arguments |
| AclRules.RunConsistent | redis-7.2.4/src/acl.c:1010-1180 | so does every sequence of command, subcommand, first-argument and category rules |
| AclRules.RunDos | redis-7.2.4/src/acl.c:596-604 | replaying kept rules from a fresh start reproduces those very rules, in order |
| AclRules.Rebuilds | redis-7.2.4/src/acl.c:733-786 | from any selector, the start rule chosen by the reserved bit followed by the kept rules gives the same permissions and the same rules |
| AclMeaning.StepCommand | redis-7.2.4/src/acl.c:608-621 | a rule about a command sets or clears exactly the bits of the command and of its subcommands, forgets the first arguments of the command and leaves everything else |
| AclMeaning.StepSubcommand | redis-7.2.4/src/acl.c:1138-1168 | a rule about a subcommand changes its bit and nothing else |
| AclMeaning.StepFirstArg | redis-7.2.4/src/acl.c:918-946 | a first-argument rule adds that argument, changes no bit and takes no other argument away |
| AclMeaning.StepCategory | redis-7.2.4/src/acl.c:629-642 | a category rule changes exactly the commands and subcommands that are in the category or belong to a command that is, as the walk over the table finds them |
| AclMeaning.StepAll | redis-7.2.4/src/acl.c:1027-1040 | the rules for all commands set all 1024 bits or none, and no first argument is left |
| AclMeaning.StepRules | redis-7.2.4/src/acl.c:550-604 | a rule drops exactly the rules with its name or its name and a separator in front, keeps the others in order, and comes last |
| AclText.StrChr | redis-7.2.4/src/acl.c:564-568 | finds the first separator at or behind a position, or the terminator |
| AclText.MemMove | redis-7.2.4/src/acl.c:580-583 | moves bytes to a lower address without disturbing those before it, overlapping or not |
| AclText.Cut | redis-7.2.4/src/acl.c:580-584 | cutting a stretch out of a terminated buffer leaves the text before and behind it, terminated |
| AclText.TokenEnd | redis-7.2.4/src/acl.c:562-574 | the end of the token at a position is the next blank, or the end of the text for the last token |
| AclText.IsSuperseded | redis-7.2.4/src/acl.c:576-579 | a token is superseded exactly if its name is the new name or starts with it and a separator |
| AclText.RemoveRule | redis-7.2.4/src/acl.c:550-592 | the in-place loop ends and leaves the join of exactly the rules that are neither the name nor a name with a suffix behind a separator, in order, with no stray blank |
| AclText.KeptTokens | redis-7.2.4/src/acl.c:550-592 | removing tokens from the text is dropping the superseded rules from the list |
| SdsArgs.GetToken | redis-7.2.4/src/sds.c:1024-1096 | the loop over the characters of one argument, with its flags for both kinds of quotes and its escapes, reads the argument of the specification, or fails with it |
| SdsArgs.SplitLine | redis-7.2.4/src/sds.c:1008-1116 | the loop over a line returns the arguments of the specification, or nothing if a quote is not closed or is followed by text |
| SdsArgs.SplitJoined | redis-7.2.4/src/sds.c:1008-1116 | splitting arguments joined with blanks gives them back if each can stand without quotes |
| SdsArgs.SplitJoinedIff | redis-7.2.4/src/sds.c:1008-1116 | it does so exactly if every argument is not empty, does not begin with a blank, and holds no blank that ends an argument, no quote and no NUL |
| SdsArgs.CatRepr | redis-7.2.4/src/sds.c:912-936 | appends the string in double quotes, every character escaped that has to be |
| SdsArgs.SplitRepr | redis-7.2.4/src/sds.c:912-1116 | whatever bytes a string has, quoted and followed by a blank or nothing it is read back as one argument, and reading goes on behind it |
| SdsArgs.SplitField | redis-7.2.4/src/sds.c:945-956 | a string that does not end in a single quote, quoted only when a character asks for it, is read back as one argument exactly if it is quoted or has no single quote; otherwise the whole line is refused |
| SdsArgs.EscapesAre | redis-7.2.4/src/sds.c:1036-1048 | which characters the escapes stand for, in both directions; any other character behind a backslash stands for itself |
| SdsArgs.HexIs | redis-7.2.4/src/sds.c:1025-1035 | characters that cannot be printed are two hexadecimal digits, and reading takes both cases |
| SdsArgs.DoubleRefused | redis-7.2.4/src/sds.c:1049-1056 | a double quote that is not closed, or closed in front of other text, spoils the line |
| SdsArgs.SplitSingle | redis-7.2.4/src/sds.c:1060-1074 | what stands between single quotes, with its single quotes escaped, is read back if it has no NUL and does not end in a backslash |
| AclParse.ParseKnown | redis-7.2.4/src/acl.c:1010-1180 | every rule string that is understood names an existing command, subcommand or category |
| AclParse.TokenUnderstood | redis-7.2.4/src/acl.c:1097-1174 | the text of every known rule parses back to that rule |
| AclParse.FirstArgLower | redis-7.2.4/src/acl.c:1107-1157 | the part behind the last separator is, in lower case, the first argument of the parsed rule |
| AclParse.UnderstoodIff | redis-7.2.4/src/acl.c:1010-1180 | a string is understood exactly if, in lower case, it is one of the four words for all or no commands, a sign and a command, subcommand or category of the table, or a plus, a command without subcommands and a first argument |
| AclParse.ParsedMeans | redis-7.2.4/src/acl.c:1010-1180 | the step of an understood string changes the permissions as its text says, whatever they were before |
| AclSelector.Selector.SetCommandBit | redis-7.2.4/src/acl.c:536-545 | exactly one bit of the bitmap takes the value, an id beyond the bitmap changes none, and the flag for all commands falls with a cleared bit |
| AclSelector.Selector.ChangePerm | redis-7.2.4/src/acl.c:608-621 | the bits of a command and all its subcommands take the value, and the first arguments of the command are forgotten |
| AclSelector.Selector.ChangeCategory | redis-7.2.4/src/acl.c:629-642 | exactly the commands of the category change |
| AclSelector.Selector.CutSuperseded | redis-7.2.4/src/acl.c:550-592 | the retained text and the retained rules stay the same list |
| AclSelector.Selector.UpdateRules | redis-7.2.4/src/acl.c:596-604 | the text becomes the join of the kept rules and the new one |
| AclSelector.Selector.SetAll | redis-7.2.4/src/acl.c:1027-1040 | all bits on or off, the reserved one included, and no rules left |
| AclSelector.Selector.ApplyRule | redis-7.2.4/src/acl.c:1097-1174 | bitmap and first arguments become those the rule asks for, as the lemmas on its meaning say, and the flag for all commands stays set exactly if no bit fell |
| AclSelector.Selector.StartOver | redis-7.2.4/src/acl.c:1027-1040 | allowing or denying all commands forgets the rules and keeps bitmap and text consistent |
| AclSelector.Selector.DoRule | redis-7.2.4/src/acl.c:1097-1174 | one rule changes bitmap, first arguments, flag and retained rules as its step says, and keeps them consistent |
| AclSelector.Selector.SetSelector | redis-7.2.4/src/acl.c:1010-1180 | succeeds exactly for the strings that speak about commands, and then grants or takes away exactly what the text of the string says, and keeps the rules of its step; otherwise nothing changes; bitmap, text, flag and first arguments stay consistent |
| AclSelector.Selector.ReplayText | redis-7.2.4/src/acl.c:754-762 | reading the retained text back succeeds and applies exactly the retained rules |
| AclSelector.Selector.Describe | redis-7.2.4/src/acl.c:733-786 | the sanity check that replays the text never fails, so the panic is unreachable; the text is the start rule and the retained rules |
| AclSelector.Selector.Rebuilt | redis-7.2.4/src/acl.c:738-762 | the temporary selector built from the text alone has the same permissions and the same rules |
| AclSelector.Selector.FromOps | redis-7.2.4/src/acl.c:952-971 | is made exactly if every string is understood, and then has the permissions and rules of applying the strings in order to an empty selector |
| AclSelector.Selector.Recompute | redis-7.2.4/src/acl.c:647-680 | when the command table has changed, the rules and their text stay, and the bitmap becomes what they mean in the new table, from the same start; in an unchanged table nothing changes |
| AclSelector.Selector.MayRun | redis-7.2.4/src/acl.c:1657-1683 | a command may run exactly if it is free, the flag is set, its bit is set, or its first argument is allowed whatever the case; for ids inside the bitmap the flag never changes the answer; subcommands are never let in by an argument |
| AclSelector.Selector.FirstArgIn | redis-7.2.4/src/acl.c:1673-1681 | the loop over the allowed first arguments finds the argument exactly if it is allowed in lower case |
| AclSelector.CommandIdTable.GetCommandID | redis-7.2.4/src/acl.c:1501-1526 | a name keeps its id, a new name gets the number of names so far, leaving out the reserved id 1023 |
| AclSelector.AssignedIdsAreGood | redis-7.2.4/src/acl.c:1501-1526 | a table with such ids has distinct ids and leaves the reserved bit free |
| AofFormat.NumberOfDecimal | redis-7.2.4/src/aof.c:1271-1283 | a printed count reads back as the same number |
| AofFormat.NumberOfCutDecimal | redis-7.2.4/src/aof.c:1494-1496 | even the decimal of a positive number, cut short, reads as a positive number |
| AofFormat.CatCommand | redis-7.2.4/src/aof.c:1268-1291 | appends exactly the encoding of the command to the buffer |
| AofFormat.CommandText | redis-7.2.4/src/aof.c:1268-1291 | what a command of three arguments looks like in the file, byte for byte |
| AofLoader.WholeCommand | redis-7.2.4/src/aof.c:1469-1576 | a complete command is run and loading goes on right behind it |
| AofLoader.CutCommand | redis-7.2.4/src/aof.c:1485-1534 | a command cut at any byte is reported as truncated, never run and never taken for a format error |
| AofLoader.LoadPrefix | redis-7.2.4/src/aof.c:1469-1631 | from any state, a cut file runs the commands that lie wholly before the cut |
| AofLoader.MarksAre | redis-7.2.4/src/aof.c:1548-1573 | the offsets kept for truncation are those of the last complete command and of the last open MULTI |
| AofLoader.LoadCut | redis-7.2.4/src/aof.c:1469-1631 | for every command sequence and every cut: exactly the complete commands are run, no cut is a format error, the load is clean exactly between commands with no open transaction, and the valid length is exact |
| AofLoader.Queued | redis-7.2.4/src/aof.c:1552-1561 | commands behind an open MULTI are only queued |
| AofLoader.PlainRuns | redis-7.2.4/src/aof.c:1555-1561 | outside of transactions commands run one after the other |
| AofLoader.Transaction | redis-7.2.4/src/aof.c:1552-1587 | a MULTI without its EXEC contributes nothing; with it, its commands run in order |
| AofLoader.OpenSince | redis-7.2.4/src/aof.c:1548-1587 | an open transaction began with the last MULTI, nothing has run since, and without it nothing is open |
| AofLoader.ReadArguments | redis-7.2.4/src/aof.c:1506-1535 | the argument loop reads what the specification reads, or fails the same way |
| AofLoader.ReadRound | redis-7.2.4/src/aof.c:1469-1576 | one round of the loop, with every error and end-of-file case, as the theorems on commands, annotations and malformed input say |
| AofLoader.LoadFile | redis-7.2.4/src/aof.c:1395-1646 | the loading loop computes the outcome that the theorems on cut, annotated and malformed files speak of |
| AofAnnotated.WholeNote | redis-7.2.4/src/aof.c:1492 | an annotation line is skipped, and loading goes on behind it with the same commands |
| AofAnnotated.CutNote | redis-7.2.4/src/aof.c:1485-1492 | a file that is cut inside an annotation ends as if it were cut in front of it |
| AofAnnotated.LongNote | redis-7.2.4/src/aof.c:1473-1492 | of a line that does not fit the buffer of 1024 only the first 1023 characters are taken for an annotation |
| AofAnnotated.NoteInFront | redis-7.2.4/src/aof.c:1492 | whatever follows, a file with an annotation in front loads to the same status and session, and its valid length counts the line as soon as a command is behind it |
| AofAnnotated.LoadItems | redis-7.2.4/src/aof.c:1469-1576 | behind whole commands and annotations loading goes on with exactly the commands run and exact offsets |
| AofAnnotated.AnnotatedCut | redis-7.2.4/src/aof.c:1469-1631 | for every file of commands and annotations and every cut, also inside an annotation: exactly the commands wholly before the cut run, no cut is a format error, the load is clean exactly if the cut is not inside a command and no transaction is open, and the valid length is exact |
| AofAnnotated.MalformedFails | redis-7.2.4/src/aof.c:1493-1517 | a line that starts neither a command nor an annotation, a count below one, or an argument without its mark fails the load behind whatever came before, whose commands have run |
| AofAnnotated.NulCount | redis-7.2.4/src/aof.c:1494 | a NUL in place of the count is a short read where the file ends in that line, and a format error otherwise |
| AofAnnotated.UnknownFails | redis-7.2.4/src/aof.c:1537-1546 | so does a command that is not known |
| AofFeed.Appender.Feed | redis-7.2.4/src/aof.c:1320-1359 | appends a time stamp if time stamps are on and the time has changed, the encoding of a SELECT if the database changed, and that of the command, and remembers time and database |
| AofFeed.Appender.Stamp | redis-7.2.4/src/aof.c:1301-1310 | a time stamp line is written exactly if the second has changed |
| AofFeed.FeedAll | redis-7.2.4/src/aof.c:1320-1359 | whatever is fed, with time stamps or without, the buffer holds exactly the commands fed, and annotations; cut anywhere it loads as its whole commands, and without time stamps it is the commands alone |
| AofFeed.TransactionText | redis-7.2.4/src/aof.c:1268-1291 | what MULTI and EXEC look like in the file |
| AofFeed.SelectText | redis-7.2.4/src/aof.c:1336-1343 | the printed SELECT is the encoding of the SELECT command |
| AofFeed.AppendedRuns | redis-7.2.4/src/aof.c:1334-1343 | if the remembered database is that of the replaying client, one feed runs its command in its database |
| AofFeed.StepConsistent | redis-7.2.4/src/aof.c:1320-1359 | every feed, transaction and rewrite keeps all files faithful |
| AofFeed.RunConsistent | redis-7.2.4/src/aof.c:2437-2444 | after any feeds and rewrites every file, replayed from database 0, runs each command with a database argument in that database |
| AofFeed.FilesStarted | redis-7.2.4/src/aof.c:2437-2444 | a new file is started by exactly those rewrites that could open one |
| AofFeed.FilesLoadAsFed | redis-7.2.4/src/aof.c:1320-1359 | the same on bytes: every file whose commands the format can carry loads without error and runs every command as it was fed |
| AofFeed.LoadWhole | redis-7.2.4/src/aof.c:1469-1631 | an uncut file runs all its commands, and is truncated exactly if it ends inside a transaction |
| AofFlush.WriteAppends | redis-7.2.4/src/aof.c:1026-1043 | a write appends its bytes exactly if the file is in append mode or its position is at the end |
| AofFlush.GapAfterUndo | redis-7.2.4/src/aof.c:1174-1185 | after a short write is undone by truncation, the next write appends exactly if the file is in append mode |
| AofFlush.GapExample | redis-7.2.4/src/aof.c:809 | a concrete gap of zero bytes on a file opened as at this line |
| AofFlush.Log.Write | redis-7.2.4/src/aof.c:1026-1043 | through interruptions and short writes, reports what the outcomes of the write calls amount to, and leaves the file as one write of that many bytes would, wherever its position is |
| AofFlush.Log.Recover | redis-7.2.4/src/aof.c:1148-1212 | after a partial write, truncation leaves buffer and recorded size as they were, a failed truncation moves the written bytes out of the buffer, and the always policy exits |
| AofFlush.Log.WriteBuffer | redis-7.2.4/src/aof.c:1129-1232 | unless the server exits, the file, the buffer and the recorded size change by what the flush amounts to: nothing, bytes kept, or bytes undone |
| AofFlush.Log.TryFsync | redis-7.2.4/src/aof.c:1234-1265 | the synced offset and the time of the last sync become exactly what the policy, the clock, a running fsync and an active child say; a failing fsync under the always policy exits |
| AofFlush.Log.Flush | redis-7.2.4/src/aof.c:1064-1266 | a flush takes the step of the specification from any state, in the file, the buffer, the synced offset and the time of the last sync, and the server exits exactly if it must have everything on disk and cannot; what stays in the buffer is reported |
| AofFlush.PutOff | redis-7.2.4/src/aof.c:1096-1115 | a flush writes at once unless an fsync runs under the every-second policy and it is not forced; then it waits, but not for two seconds or more since it was first put off |
| AofFlush.CatchesUp | redis-7.2.4/src/aof.c:1072-1083 | after any run, a flush in a later second with no fsync running or suppressed, that leaves nothing in the buffer, leaves nothing unsynced, also if the buffer was empty before |
| AofFlush.SyncedOnlySo | redis-7.2.4/src/aof.c:1258-1265 | under the every-second policy the synced offset changes only in such a flush, and then to the size of the file at that second |
| AofFlush.SyncedIff | redis-7.2.4/src/aof.c:1234-1265 | after any run the synced offset falls short of the file exactly if something was written since the last sync |
| AofFlush.NextSound | redis-7.2.4/src/aof.c:1064-1266 | from a state in which file and buffer are what was fed, one feed or flush keeps that exactly if the file is at its end or no bytes are kept |
| AofFlush.RunSound | redis-7.2.4/src/aof.c:1064-1266 | over every run, file and buffer are what was fed at every moment exactly if the file is in append mode, or no bytes are kept after others were truncated away |
| AofFlush.Run | redis-7.2.4/src/aof.c:1064-1266 | a run of feeds and flushes with any outcomes of writes, truncations and fsyncs, on a file in either mode, ends in the state of the specification, synced offset included, unless the server exits, which it does exactly at the first flush that must exit; if the file is in append mode, or nothing is kept behind an undone write, file and buffer together are everything fed and the recorded size is right |
| AofFlush.GapInRun | redis-7.2.4/src/aof.c:809 | a concrete run: two bytes fed, a short write undone, and the next flush leaves a NUL in front of them |
| AofFsync.Sync.Submit | redis-7.2.4/src/bio.c:152-160 | a job is queued at the end and counted by its type |
| AofFsync.Sync.FlushBegin | redis-7.2.4/src/aof.c:1064-1115 | whether an fsync is in progress is the number of fsync jobs at this moment, and decides whether the flush waits, writes or only syncs |
| AofFsync.Sync.FlushWrite | redis-7.2.4/src/aof.c:1129-1232 | the buffer goes to the open file; what was published stays on disk |
| AofFsync.Sync.FlushSync | redis-7.2.4/src/aof.c:1258-1265 | an fsync job carries the offset at which everything fed has been written |
| AofFsync.Sync.Switch | redis-7.2.4/src/aof.c:831-845 | the old file is left to a close job, and a new one is open |
| AofFsync.Sync.Fsync | redis-7.2.4/src/bio.c:259-277 | after the fsync of the job at the head, everything up to its offset is on disk, whatever file it is in |
| AofFsync.Sync.Publish | redis-7.2.4/src/bio.c:274-277 | the published offset becomes that of the job, and never goes back |
| AofFsync.Sync.Finish | redis-7.2.4/src/bio.c:293-299 | the job leaves the queue and its counter only when it is done |
| AofFsync.FsyncedDurable | redis-7.2.4/src/bio.c:259-277 | one fsync suffices because older files were closed by earlier jobs and newer commands end later |
| AofFsync.Sync.Drain | redis-7.2.4/src/bio.c:314-322 | draining ends; then the queue is empty, no job is running, counters are zero, and every closed file is on disk |
| AofFsync.OneFlushPublishes | redis-7.2.4/src/aof.c:1258-1265 | a flush with nothing queued and four steps of the worker put all that was fed on disk and publish the offset |
| AofFsync.Step | redis-7.2.4/src/bio.c:205-300 | every step of either thread does exactly what it is for, keeps the invariant, and the published offset does not decrease |
| AofFsync.Run | redis-7.2.4/src/aof.c:924-931 | in every interleaving each step does what it is for, the published offset never exceeds what is really on disk, across file switches, and never decreases |
| AofDataset.ExecChunks | redis-7.2.4/src/aof.c:1794-1832 | however items are cut into commands, running the commands adds all items in order |
| AofDataset.ItemsRebuild | redis-7.2.4/src/aof.c:1836-1944 | adding the items of a collection in any order of enumeration gives the collection; for lists the order is kept |
| AofDataset.KeyRebuilt | redis-7.2.4/src/aof.c:2263-2311 | the commands emitted for a key store exactly its value and its expire |
| AofDataset.StringsMean | redis-7.2.4/src/aof.c:2276-2282 | SET stores the string under the key without an expire and does nothing else |
| AofDataset.CollectionsMean | redis-7.2.4/src/aof.c:1794-1944 | RPUSH, SADD, ZADD and HMSET add to a collection of their type or start one, keep the expire, and do nothing else |
| AofDataset.OthersMean | redis-7.2.4/src/aof.c:2251-2311 | PEXPIREAT sets the expire and SELECT the database, and nothing else |
| AofRewrite.StreamText | redis-7.2.4/src/aof.c:1794-1832 | a stream whose headers match their arguments is, byte for byte, the encoding of its commands |
| AofRewrite.AllTokensAre | redis-7.2.4/src/aof.c:1795-1829 | headers written ahead from a running count announce exactly the arguments that follow, for any positive chunk size |
| AofRewrite.RewriteCollection | redis-7.2.4/src/aof.c:1794-1832 | the loop writes exactly the commands of at most chunk items each; the loops for sets, sorted sets and hashes differ only in what an item is |
| AofRewrite.Enumerate | redis-7.2.4/src/aof.c:1836-1944 | every member of a collection is enumerated, lists in order |
| AofRewrite.RewriteKey | redis-7.2.4/src/aof.c:2263-2311 | the commands of one key, value first, then PEXPIREAT if it expires |
| AofRewrite.RewriteDb | redis-7.2.4/src/aof.c:2251-2330 | replaying what is written for a database on the empty database gives the database |
| AofRewrite.RewriteAll | redis-7.2.4/src/aof.c:2251-2330 | replaying the stream on empty databases gives all databases; empty ones are skipped |
| AofRewrite.PlainLoads | redis-7.2.4/src/aof.c:1469-1631 | such a stream loads without error and runs its commands as written |
| AofRewrite.RewriteFile | redis-7.2.4/src/aof.c:2235-2336 | for every dataset and every positive chunk size that the format can carry, loading the written bytes rebuilds the dataset |
| AofManifest.Manifest.Dup | redis-7.2.4/src/aof.c:391-408 | a copy with equal lists, numbers and dirty flag that can be changed on its own |
| AofManifest.Manifest.NewBaseName | redis-7.2.4/src/aof.c:427-446 | the old BASE entry becomes the first HISTORY entry, and a new BASE entry gets the next number |
| AofManifest.Manifest.NewIncrName | redis-7.2.4/src/aof.c:455-464 | a new INCR entry with the next number at the end of the list |
| AofManifest.Manifest.LastIncrName | redis-7.2.4/src/aof.c:473-485 | the last INCR entry, made if there is none |
| AofManifest.Manifest.MarkRewritten | redis-7.2.4/src/aof.c:492-522 | the backward loop moves all INCR entries but the open one to the head of the history, in order |
| AofManifest.NewBaseGood | redis-7.2.4/src/aof.c:427-446 | keeps one BASE entry, increasing INCR numbers and only older files in the history; the new name is unused |
| AofManifest.NewIncrGood | redis-7.2.4/src/aof.c:455-464 | the same for a new INCR entry |
| AofManifest.NewIncrFiles | redis-7.2.4/src/aof.c:455-464 | adds exactly the new INCR file to the listed files |
| AofManifest.RetiredGood | redis-7.2.4/src/aof.c:492-522 | the lists keep their invariant exactly if a file is being written, which stays, or there was no INCR entry |
| AofManifest.RetiredFiles | redis-7.2.4/src/aof.c:492-522 | retiring loses and repeats no file |
| AofManifest.AfterRewriteGood | redis-7.2.4/src/aof.c:2599-2662 | a finished rewrite leaves the new BASE entry and the INCR entry being written |
| AofManifest.AfterRewriteFiles | redis-7.2.4/src/aof.c:2599-2662 | it adds exactly the new BASE file to the listed files and loses or repeats no other |
| AofManifest.GoodListsOnce | redis-7.2.4/src/aof.c:192-220 | no file is listed twice |
| AofManifestText.ManifestAsString | redis-7.2.4/src/aof.c:192-220 | the written text is the lines of the BASE, HISTORY and INCR entries in that order |
| AofManifestText.LoadManifest | redis-7.2.4/src/aof.c:256-382 | the reading loop accepts and refuses exactly what the specification does: empty file, long line, bad quotes, missing fields, second BASE, INCR out of order, unknown type |
| AofManifestRead.AcceptedIff | redis-7.2.4/src/aof.c:256-382 | any text is accepted exactly if it is not empty, every line but the annotations is complete and an entry, and the entries are in order; the result is the entries by their types, in the order of the file |
| AofManifestRead.TakenIff | redis-7.2.4/src/aof.c:339-359 | entries are in order exactly if their types are known, at most one is a BASE and the INCR numbers grow from one on |
| AofManifestRead.LinesAre | redis-7.2.4/src/aof.c:268-299 | the text is read in pieces of at most 1024 characters that end with a newline, with the limit or with the text |
| AofManifestRead.EntryIff | redis-7.2.4/src/aof.c:301-334 | a line is an entry exactly if it splits into at least three pairs that give a name without a path, a number other than zero and a type |
| AofManifestRead.FieldsRead | redis-7.2.4/src/aof.c:315-328 | fields come in any order and any case, later ones win, and unknown ones are left out |
| AofManifestRead.TrimIs | redis-7.2.4/src/aof.c:301 | blanks, tabs and line ends around a line are dropped, and nothing else |
| AofManifestRead.LineShape | redis-7.2.4/src/aof.c:121-134 | what the line of an entry looks like, byte for byte |
| AofManifestText.EntryRead | redis-7.2.4/src/aof.c:121-134 | the line of an entry reads back as that entry exactly if the configured name is quoted in it or has no single quote; otherwise it is refused |
| AofManifestText.LineRead | redis-7.2.4/src/aof.c:280-334 | whatever was read before and whatever follows, a text that begins with the line of an entry reads as that entry, or is refused, exactly by this condition and the length of the line |
| AofManifestText.ManifestRoundTrip | redis-7.2.4/src/aof.c:256-382 | for every configured name that is no path, every manifest with good lists that is not empty reads back as the same lists and numbers exactly if the name is quoted or has no single quote and every line fits the buffer; otherwise it is refused |
| AofManifestText.ShortNameFits | redis-7.2.4/src/aof.c:268 | with a name of up to 225 bytes, whatever they are, every line fits |
| AofManifestText.QuotedNameExample | redis-7.2.4/src/aof.c:121-134 | a concrete name with a single quote, whose first manifest the loader refuses |
| AofManifestText.RetiredReload | redis-7.2.4/src/aof.c:492-522 | writing the retired lists and loading them gives the same lists and numbers exactly if the text can be read, and a file is being written or there was no INCR entry |
| AofManifestText.RetiredRead | redis-7.2.4/src/aof.c:339-365 | with no file being written, a reload gives the same lists with the last INCR number forgotten, or is refused for the reasons above |
| AofManifestText.RetiredExample | redis-7.2.4/src/aof.c:492-522 | a concrete manifest after whose reload the next INCR file gets the name of a retired one |
| AofManifestText.NamesApart | redis-7.2.4/src/aof.c:437-460 | distinct BASE and INCR files have distinct names |
| AofProtocol.Appended | redis-7.2.4/src/aof.c:1129-1232 | appending to the last INCR file what is heard as these commands extends the replayed effect by exactly them |
| AofProtocol.CommittedIncr | redis-7.2.4/src/aof.c:790-853 | committing a manifest with one more empty INCR file changes nothing in the replayed effect |
| AofProtocol.CommittedRewrite | redis-7.2.4/src/aof.c:2599-2681 | a committed rewrite replays to what was in the snapshot, followed by what the INCR file opened at the fork is heard as |
| AofProtocol.CommittedFirst | redis-7.2.4/src/aof.c:713-768 | the first manifest of a fresh server replays to the empty dataset |
| AofProtocol.OtherFiles | redis-7.2.4/src/aof.c:668-692 | files the manifest does not load may come, change and go |
| AofProtocol.LeftoverBuffer | redis-7.2.4/src/aof.c:2437-2444 | on the disk that a rewrite leaves, a dataset that remembers every command is right exactly if the buffer was empty at the fork |
| AofProtocol.CommittedExact | redis-7.2.4/src/aof.c:2437-2444 | for a server whose memory is right, what the disk says after the rewrite is what was flushed exactly if the buffer was empty at the fork |
| AofProtocol.LogExact | redis-7.2.4/src/aof.c:1649-1772 | a disk that replays to some commands replays to others exactly if these are the same, for a dataset that remembers every command |
| AofProtocol.FollowsGood | redis-7.2.4/src/aof.c:790-853 | a manifest on disk that still lists deleted files, or already lists an empty INCR file whose commit was reported to have failed, replays like the one in memory |
| AofProtocol.LinedSplit | redis-7.2.4/src/aof.c:1129-1232 | writing a prefix of the buffer makes a loader hear exactly the commands of that prefix, and leaves the rest lined up |
| AofProtocol.LinedPrefix | redis-7.2.4/src/aof.c:1129-1232 | of a buffer written up to any command, a loader hears exactly the pieces that are whole |
| AofProtocol.Relined | redis-7.2.4/src/aof.c:2437-2444 | a buffer that ends up behind another file is heard as as many commands, though maybe others |
| AofProtocol.LateFailure | redis-7.2.4/src/aof.c:2664-2676 | deleting the new BASE file under the new manifest leaves a manifest that names a missing file |
| AofMemory.WrittenRuns | redis-7.2.4/src/aof.c:1129-1232 | after any prefix of the buffer has reached the file, the manifest in memory and the one on disk replay to the commands logged before and the ones heard, and the rest of the buffer still fits |
| AofMemory.TornIsSafe | redis-7.2.4/src/aof.c:1129-1232 | a process that dies when part of the buffer has reached the file leaves a disk that replays to the commands logged before and those of the whole pieces |
| AofMemory.SwitchedRuns | redis-7.2.4/src/aof.c:790-853 | turning to a new INCR file, with whatever is in the buffer, keeps everything a running server relies on |
| AofMemory.LateSwitchRuns | redis-7.2.4/src/aof.c:817-822 | so does a switch whose manifest is on disk but which memory takes for failed |
| AofMemory.TakenOverRuns | redis-7.2.4/src/aof.c:2660-2681 | so does taking over a rewrite; the disk then says what was flushed exactly if the buffer was empty at the fork |
| AofMemory.LateBrokenRuns | redis-7.2.4/src/aof.c:2664-2676 | a rewrite whose commit took effect but was reported to have failed leaves a disk that cannot be loaded, and a server that goes on with the old manifest |
| AofMemory.UnlinkedRuns | redis-7.2.4/src/aof.c:668-692 | deleting a retired file never deletes one that the manifest on disk loads |
| AofServer.Server.Feed | redis-7.2.4/src/aof.c:1320-1359 | the commands change the dataset, and the piece of file made for them goes to the end of what the current file will hold |
| AofServer.Server.Write | redis-7.2.4/src/aof.c:1129-1232 | the new state is the old one with a prefix of the buffer moved to the file, in every field |
| AofServer.Server.CrashInWrite | redis-7.2.4/src/aof.c:1129-1232 | dying in a write that got any sound text to the file is safe |
| AofServer.Server.FlushAll | redis-7.2.4/src/aof.c:2440 | the flush before a rewrite may fall short, and a process that dies in it may have written any number of feeds |
| AofServer.Server.Persist | redis-7.2.4/src/aof.c:598-608 | the manifest file is the new one exactly if the manifest was dirty and the write did not fail before the rename; a failure after it is reported all the same |
| AofServer.Server.DeleteHistory | redis-7.2.4/src/aof.c:668-692 | deletes every retired file and no live one, then drops them from the manifest in memory and, if the commit works, on disk; a failing commit does no harm, and nothing happens if it is disabled or there are none |
| AofServer.Server.OpenNewIncr | redis-7.2.4/src/aof.c:790-853 | succeeds exactly if file and manifest could be written, and then the new empty INCR file is current; otherwise memory stays as it was |
| AofServer.Server.StartRewrite | redis-7.2.4/src/aof.c:2425-2493 | the child gets a snapshot of the flushed and the buffered commands, later commands go to a new empty file, and what a flush that fell short left in the buffer is noted; any failing step leaves a consistent server |
| AofServer.Server.CommitRewrite | redis-7.2.4/src/aof.c:2660-2681 | exactly a commit that is reported to have failed after it took effect, followed by the deletion of the new BASE file, breaks the disk |
| AofServer.Server.TakeOver | redis-7.2.4/src/aof.c:2599-2681 | the child's file becomes the BASE file and the replaced files are retired; the disk then says what was flushed exactly if the buffer was empty at the fork |
| AofServer.Server.ChildDone | redis-7.2.4/src/aof.c:2582-2742 | the same for the whole handler of a child that succeeded, at every crash point; the disk is broken only if the commit was reported to have failed late, and always if the server is still up then |
| AofServer.Server.CleanUp | redis-7.2.4/src/aof.c:2689-2730 | what the rewrite has made obsolete is gone from disk and manifest, and so is the file of the child |
| AofServer.Server.ChildFailed | redis-7.2.4/src/aof.c:2706-2742 | a failed or killed child leaves the manifest as it was |
| AofServer.Server.LoadFiles | redis-7.2.4/src/aof.c:1649-1772 | loads BASE and INCR files in order; fails exactly if one is missing |
| AofServer.Server.Load | redis-7.2.4/src/aof.c:232-252 | loading succeeds exactly if the disk is not broken, and gives the effect of what the disk says |
| AofServer.Server.OpenFirst | redis-7.2.4/src/aof.c:713-768 | makes the first BASE and INCR files and the first manifest |
| AofServer.Server.Restart | redis-7.2.4/src/aof.c:713-768 | if it gets far enough, the dataset is the effect of what the disk says; with enough working disk actions it does get far enough, whatever the crash left, unless the disk is broken |
| AofServer.Server.OpenFiles | redis-7.2.4/src/aof.c:713-768 | opens the last INCR file of the manifest or makes the first files; three working disk actions are enough |
| AofServer.Step | redis-7.2.4/src/aof.c:2582-2742 | every step of server, child and disk, cut short by a crash at any disk action, does what it is for and keeps the invariant; only a late failure breaks the disk, and only a short flush before a rewrite lets disk and memory part |
| AofServer.Run | redis-7.2.4/src/aof.c:2425-2493 | in every reachable state without a late failure the files the manifest names exist, load, and replay to what was logged; without a short flush before a rewrite that is exactly all commands flushed so far |
| AofServer.LeftoverExample | redis-7.2.4/src/aof.c:2440-2444 | a concrete run: one command, a flush that writes nothing, a rewrite; the disk does not say what was flushed |
| AofServer.LateExample | redis-7.2.4/src/aof.c:2664-2676 | a concrete run that ends with a manifest that names a missing file |
| AofDataModel.FeedHeard | redis-7.2.4/src/aof.c:1334-1343 | behind any file that is in the database last fed for, one feed is heard as its command in its database |
| AofDataModel.BodyHeard | redis-7.2.4/src/aof.c:1552-1561 | so is a whole transaction, with the SELECTs inside it |
| AofDataModel.FeedQuiet | redis-7.2.4/src/aof.c:1334-1343 | behind any file, of a SELECT without its command nothing is heard |
| AofDataModel.BodyQuiet | redis-7.2.4/src/aof.c:1552-1587 | behind any file, of part of a transaction nothing is heard |
| AofDataModel.LeftoverDatabase | redis-7.2.4/src/aof.c:2437-2444 | a command left in the buffer at a file switch runs in its database exactly if its SELECT is with it or it belongs to database 0 |
| AofDataModel.Executes | redis-7.2.4/src/aof.c:1537-1561 | executing a stream with its SELECTs is applying each command in its database |
| AofDataModel.FileLoads | redis-7.2.4/src/aof.c:1395-1646 | the bytes of a file load without error and run, from database 0, exactly what the file is heard as |
| AofDataModel.RewriteDumps | redis-7.2.4/src/aof.c:2235-2336 | the stream of a rewrite is a file that rebuilds the dataset |
| AofDataModel.ReplayGood | redis-7.2.4/src/aof.c:2235-2336 | commands that fit the format only ever lead to datasets that a rewrite can write |
| AofRedis.Dump | redis-7.2.4/src/aof.c:2235-2336 | the bytes a child writes, loaded, rebuild the databases |
| AofRedis.GoodDiskLoads | redis-7.2.4/src/aof.c:1649-1772 | loading the bytes of the files that the manifest names, each from database 0, gives the effect of the logged commands |
| AofRedis.Redis.Feed | redis-7.2.4/src/aof.c:1320-1359 | a command runs in its database and is buffered with the SELECT it needs; the database of the current file stays known |
| AofRedis.Redis.ChildDone | redis-7.2.4/src/aof.c:2582-2742 | takes over a real dump of the snapshot |
| AofRedis.Run | redis-7.2.4/src/aof.c:1320-2742 | for any number of databases, chunk size, commands, transactions, flushes, rewrites, crashes at any disk action or byte of a write, and restarts: the bytes on disk load without error and give exactly the databases that all flushed commands give, unless a flush before a rewrite fell short or a commit was reported to have failed late; a run ends early only in front of a write torn so that the next start cannot go on, and then what that start does is stated |
| AofRedis.DieInWrite | redis-7.2.4/src/aof.c:1129-1232 | for a write that stops at any byte: what the next start loads; and, if it can go on from there, that the disk it truncates is as good as any other |
| AofRedis.StepDying | redis-7.2.4/src/aof.c:1129-1232 | as an event of a run: such a death keeps the invariant and leaves the truncated disk, or the run ends with a file that the next start refuses or leaves in an open transaction |
| AofTorn.LoadFiles | redis-7.2.4/src/aof.c:1698-1750 | the loop over the files of a manifest loads each from database 0 and gives up exactly if one is missing, is damaged, or had to be truncated without being the last |
| AofTorn.TornFile | redis-7.2.4/src/aof.c:1578-1626 | a file cut at any byte loads cleanly or as truncated, exactly as the cut falls; what runs is what is heard of its whole commands; and the length it is cut to is that of the commands kept |
| AofTorn.KeptBytes | redis-7.2.4/src/aof.c:1606 | the bytes that the truncation leaves are those of the commands kept |
| AofTorn.KeptSound | redis-7.2.4/src/aof.c:1573-1613 | after that truncation the same commands are heard, and the file can be written to again exactly if the cut was not inside a command of an open transaction |
| AofTorn.BehindOpenTransaction | redis-7.2.4/src/aof.c:1552-1606 | commands written behind a transaction that a truncation left open are not run by the next load, and are cut away by it |
| AofTorn.OpenTransactionExample | redis-7.2.4/src/aof.c:1573 | a concrete transaction torn in its second command: the MULTI stays, and the next command fed is lost |
| AofTorn.TornRestart | redis-7.2.4/src/aof.c:1698-1750 | for every state of a running server and every byte at which it dies in a write: the next start loads exactly if the current file is the last in the manifest on disk, or ends between commands outside a transaction, and then has the databases of all logged commands and all feeds written whole; otherwise it refuses |
| AofTorn.NotLastExample | redis-7.2.4/src/aof.c:1746-1749 | a concrete manifest: one byte of a write keeps the server from starting exactly if it is not in the last file |
| AofTorn.KeptIsHeard | redis-7.2.4/src/aof.c:1573-1613 | the truncated file is the old one and part of the buffer, and is heard as the feeds written whole |
| AofTorn.SplitBetweenFiles | redis-7.2.4/src/aof.c:1174-1206 | if what a short write wrote stays and the rest of the buffer goes to the next file, the two files load exactly if the first one ends between commands and outside a transaction |
| AofTorn.TornCommand | redis-7.2.4/src/aof.c:1578-1626 | a command whose bytes a crash cut anywhere is loaded as if it had not been written |
| AofTorn.TornTransaction | redis-7.2.4/src/aof.c:1578-1626 | so is a transaction cut anywhere, and none of it runs |
| AofRedis.ManifestIsAccepted | redis-7.2.4/src/aof.c:256-382 | whatever manifest is on a good disk is accepted by the loader and reads back as the same lists exactly by the condition on its name and the length of its lines |
| Bits.ClampRange | redis-7.2.4/src/bitops.c:833-837 | a position inside stays, a negative one counts from the end, a start before the string becomes its first position, an end past it its last and an end before it its first; an empty string has the empty range |
| Bits.MaskedFirst | redis-7.2.4/src/bitops.c:838-845 | the mask of the first byte selects exactly its bits before the range |
| Bits.MaskedLast | redis-7.2.4/src/bitops.c:838-845 | the mask of the last byte selects exactly its bits behind the range |
| BitCount.OnesWord | redis-7.2.4/src/bitops.c:66-80 | three parallel steps turn every byte of a 32-bit word into the number of its ones, without carry between bytes |
| BitCount.TopSumNat | redis-7.2.4/src/bitops.c:80-86 | with byte sums of at most 56, the top byte of the product is their sum |
| BitCount.CountBlock | redis-7.2.4/src/bitops.c:54-87 | the block of 28 bytes is counted exactly: seven sums per byte never exceed 224 in the multiplication |
| BitCount.Popcount | redis-7.2.4/src/bitops.c:40-92 | the number of set bits, for every string, length and alignment |
| BitCount.CountRange | redis-7.2.4/src/bitops.c:856-872 | a bit range is counted exactly, single bytes with both masks included |
| BitCount.BitCountCommand | redis-7.2.4/src/bitops.c:811-872 | the number of set bits in the clamped byte or bit range, and 0 for an empty one |
| BitPos.HitsPlaced | redis-7.2.4/src/bitops.c:151-159 | a one-bit mask meets the gathered word exactly if the bit of the byte at its place is set |
| BitPos.OneMoves | redis-7.2.4/src/bitops.c:172-180 | shifting the mask right moves it to the next bit of the string, and to zero after the last |
| BitPos.SkipWords | redis-7.2.4/src/bitops.c:132-142 | skipped words hold no wanted bit, and the next full word does |
| BitPos.SearchWord | redis-7.2.4/src/bitops.c:168-184 | the search of the last word always finds the bit, so the panic is unreachable |
| BitPos.Bitpos | redis-7.2.4/src/bitops.c:101-186 | the first position with the bit; -1 if no bit is set; behind the last byte if no bit is clear; for every alignment |
| BitPos.SearchRange | redis-7.2.4/src/bitops.c:957-1002 | partial first byte, whole bytes and partial last byte together find the first bit of the range or none |
| BitPos.BitPosCommand | redis-7.2.4/src/bitops.c:905-1002 | the least position of the clamped range with the wanted bit, or -1, in bytes or bits; without an end, clear bits follow the string |
| BitPos.BehindTheEnd | redis-7.2.4/src/bitops.c:988-1001 | without an end, a search for a clear bit in set bits only returns the first position past the string |
| BitField.SetUnsigned | redis-7.2.4/src/bitops.c:209-222 | the field then holds the lowest bits of the value and no other bit of the string changed |
| BitField.GetUnsigned | redis-7.2.4/src/bitops.c:229-241 | the number the bits of the field spell |
| BitField.GetSigned | redis-7.2.4/src/bitops.c:243-263 | its two's complement reading, for widths 1 to 64 |
| BitField.SetSigned | redis-7.2.4/src/bitops.c:224-227 | the field then holds the lowest bits of the value, which read back as the value if it is in range, and no other bit changed |
| BitField.UnsignedTests | redis-7.2.4/src/bitops.c:288-323 | for widths 1 to 63 the overflow and underflow tests are exact, in 64-bit arithmetic |
| BitField.SignedTests | redis-7.2.4/src/bitops.c:325-378 | for widths 1 to 64 and values of the field both tests are exact, in 64-bit arithmetic |
| BitField.UnsignedExact | redis-7.2.4/src/bitops.c:288-323 | an unsigned sum is stored exactly if it fits, else wrapped, saturated or refused as the policy says |
| BitField.SignedExact | redis-7.2.4/src/bitops.c:325-378 | the same for signed sums of every width |
| BitField.FittedIsRight | redis-7.2.4/src/bitops.c:288-378 | what should be stored is the number if it fits, else the number of the range with the same lowest bits, the one nearest to it, or nothing, as the policy says |
| BitField.SetExact | redis-7.2.4/src/bitops.c:325-378 | a number stored in a signed field becomes what the policy says, exactly unless the policy is saturation, the field has fewer than 64 bits and the number is at most the largest value minus 2^63 |
| BitField.SetUnsignedExact | redis-7.2.4/src/bitops.c:1197-1202 | a number stored in an unsigned field becomes what the policy says, exactly unless the policy is saturation and the number is negative |
| BitField.SetUnsignedField | redis-7.2.4/src/bitops.c:1182-1216 | SET answers with the old value, refuses exactly numbers out of range under the failing policy, and stores what the check says; no other bit changes |
| BitField.VeryNegative | redis-7.2.4/src/bitops.c:329-345 | a concrete number that saturates to the wrong end |
| BitField.NegativeUnsigned | redis-7.2.4/src/bitops.c:1197-1202 | a concrete negative number that saturates to the largest value |
| BitField.IncrSigned | redis-7.2.4/src/bitops.c:1150-1182 | INCRBY answers and stores the exact sum or what the policy says; on failure nothing changes; no other bit changes |
| BitField.IncrUnsigned | redis-7.2.4/src/bitops.c:1182-1216 | the same for unsigned fields of 1 to 63 bits |
| BitField.SetField | redis-7.2.4/src/bitops.c:1150-1182 | SET answers with the old value, refuses exactly numbers out of range under the failing policy, and stores what the check says; no other bit changes |
| BitField.CopyNine | redis-7.2.4/src/bitops.c:1227-1237 | nine bytes from the string, filled up with zeros |
| BitField.GetField | redis-7.2.4/src/bitops.c:1217-1250 | GET from the nine-byte buffer reads the same value as the string continued with zeros |
| BitOp.OperateWord | redis-7.2.4/src/bitops.c:692-731 | a word operation is the operation on its eight bytes |
| BitOp.FastPath | redis-7.2.4/src/bitops.c:678-743 | every byte the fast path produces is the operation over all strings |
| BitOp.SettledFold | redis-7.2.4/src/bitops.c:753-767 | once a byte is settled, further strings cannot change it |
| BitOp.OperateByte | redis-7.2.4/src/bitops.c:747-770 | the byte loop with its early exit computes the operation over all strings, shorter ones continued with zeros |
| BitOp.FoldBit | redis-7.2.4/src/bitops.c:747-770 | the folded byte, bit by bit: all, some, an odd number, or not |
| BitOp.Lengths | redis-7.2.4/src/bitops.c:643-670 | the longest and the shortest length; missing keys count as empty |
| BitOp.BitOpCommand | redis-7.2.4/src/bitops.c:643-771 | the result is as long as the longest string; a bit of it is set exactly if all strings have it, some have it, an odd number has it or the only one has not, and behind their ends strings have clear bits; by whichever path it was produced |
| BlockIndex.EnterKeeps | redis-7.2.4/src/blocked.c:374-407 | entering a list keeps lists, holdings and counts in step |
| BlockIndex.ExitKeeps | redis-7.2.4/src/blocked.c:512-545 | leaving a list does too, and neither the list nor a needed count is ever missing |
| BlockIndex.HeldIffListed | redis-7.2.4/src/blocked.c:368-433 | a client holds a key exactly if it occurs in the list of the key, and then exactly once |
| BlockIndex.CountIsFlagged | redis-7.2.4/src/blocked.c:396-405 | the count of a key is the number of its waiters that want to know of its deletion, and absent exactly at zero |
| Blocked.Server.BlockClient | redis-7.2.4/src/blocked.c:88-99 | the client counts as blocked, in total and for its type |
| Blocked.Server.EnterLists | redis-7.2.4/src/blocked.c:374-407 | the client is at the end of the list of each key, once, even if a key is named twice |
| Blocked.Server.BlockForKeys | redis-7.2.4/src/blocked.c:368-415 | the client is blocked on exactly these keys, and no other list changed |
| Blocked.Server.ReleaseEntry | redis-7.2.4/src/blocked.c:512-545 | the client leaves one list; empty lists and counts at zero disappear |
| Blocked.Server.LeaveLists | redis-7.2.4/src/blocked.c:419-433 | the client leaves the lists of all its keys and no other |
| Blocked.Server.QueueForReprocessing | redis-7.2.4/src/blocked.c:173-180 | a client is on the queue of unblocked clients at most once |
| Blocked.Server.UnblockClient | redis-7.2.4/src/blocked.c:184-224 | the client is in no list and in no counter, and queued if asked for |
| Blocked.Server.UnblockOnTimeout | redis-7.2.4/src/blocked.c:705-721 | a timeout or error leaves the client in no list at all, queued, and with no command left to run again |
| Blocked.Server.SignalKey | redis-7.2.4/src/blocked.c:452-499 | the key is queued exactly if somebody waits for it, somebody is blocked in a way the signal may end, and it is not queued yet |
| Blocked.Server.ConcernsIff | redis-7.2.4/src/blocked.c:457-480 | the quick returns on counters and dictionaries are exact |
| BlockWorld.AnnouncedAre | redis-7.2.4/src/blocked.c:452-499 | of several signals exactly the keys that concern somebody are queued behind the others, each once |
| BlockWorld.AnnouncedInOrder | redis-7.2.4/src/blocked.c:452-499 | and in the order of the signals |
| Blocked.Server.NobodyMissed | redis-7.2.4/src/blocked.c:457-480 | the quick returns of a signal miss no waiting client that the key could serve |
| Blocked.Server.UnblockOnKey | redis-7.2.4/src/blocked.c:636-675 | a served client is out of all its lists, its command runs again if it is pending and sends its signals, and it ends blocked on exactly the new keys or idle and queued; no other client changes |
| Blocked.Server.ServeOne | redis-7.2.4/src/blocked.c:576-592 | a client is served exactly if the value suits its type, it is a module client and there is a value, or it waits for deletion; what then happens to clients, lists, ready keys and the queue is exact, and otherwise nothing happens |
| Blocked.Server.HandleKey | redis-7.2.4/src/blocked.c:558-594 | the pass visits exactly the clients that were waiting, in blocking order, even when they block again; everybody visited ends as its own state and reaction say, nobody else changes, and in every list those that did not leave stay in order, followed by those that blocked on the key again, in the order of the visits |
| BlockWorld.VisitsServe | redis-7.2.4/src/blocked.c:573-593 | the same told of any sequence of visits: what they do together follows from the state before them |
| BlockWorld.ServedWaits | redis-7.2.4/src/blocked.c:583-591 | a client that was served is blocked afterwards exactly if its command was pending and blocked again, and is in exactly the lists of those keys; one that was not served keeps its place |
| Blocked.Server.WaitsOnce | redis-7.2.4/src/blocked.c:558-594 | no client waits twice for a key, so none is visited twice |
| Blocked.Server.PickUp | redis-7.2.4/src/blocked.c:341-349 | a key leaves the dictionary when it is picked up, and may be signalled anew |
| Blocked.Server.HandleRound | redis-7.2.4/src/blocked.c:332-357 | one round handles exactly the keys queued at its start, in order, each with a pass as above over those waiting at that time; keys signalled meanwhile wait in the new list |
| Blocked.Server.NextUnblocked | redis-7.2.4/src/blocked.c:129-134 | the queue of unblocked clients is emptied from the front |
| Blocked.Step | redis-7.2.4/src/blocked.c:315-359 | every step does what it is for, and keeps index, counts, counters and queues in agreement |
| Blocked.Run | redis-7.2.4/src/blocked.c:315-359 | so does every run, from no clients at all |

## Left out

- The RDB format: BASE files are in append-only format, as with `aof-use-rdb-preamble no`.
- AOF_WAIT_REWRITE, switching the append-only file on and off, and the upgrade from a single file.
- Power loss: a crash is one of the process, and written bytes survive it.
- AofServer.Server.Write: a write that ends well reaches the file feed by feed; a process that dies in it at any byte is `AofServer.Server.CrashInWrite` and `AofRedis.DieInWrite`, and short writes and their recovery are the matter of `AofFlush`.
- AofServer.Server.FlushAll: a flush that falls short leaves whole feeds in the buffer; what a split inside a feed loads as is `AofTorn.SplitBetweenFiles`.
- AofServer.Server.LoadFiles: only the dataset and missing files matter; truncated files are in `AofTorn.LoadFiles`, sizes and progress reports are not modelled.
- AofTorn.LoadFiles: the sizes of the files are not added up first, and a manifest whose files are all empty loads as no data.
- AofRedis.DieInWrite: what the next start does to the file is part of the step, as nothing happens in between; a process that dies in a write on a disk that is already broken only dies.
- AofServer.Server.Load: the manifest is read as lists; that its text gives these lists is `AofRedis.ManifestIsAccepted`.
- AofRedis.Run: files without time stamps; commands fed without a database, and commands other than those a rewrite emits, which change nothing here.
- AofLoader.LoadFile: errors in opening the file and the status of an empty file are not modelled, and the truncation is taken to succeed.
- AofLoader.LoadCut: files with annotation lines are the matter of `AofAnnotated.AnnotatedCut`; loading truncated files is on; the file is then shortened to its valid length, and a second load is the theorem for that cut.
- AofLoader.Load: command lookup and the transaction flags are one function from commands to kinds.
- AofFeed.Appender.Feed: the time is a parameter, and whether the file is on at all is decided elsewhere; not modelled are commands that the server rewrites before it feeds them.
- AofFsync.Sync.FlushBegin: whether a write is put off and whether an fsync is due are parameters instead of clocks; all writes and fsyncs succeed and the policy is everysec, as the property demands.
- AofFsync.Sync.Switch: happens with an empty buffer and no flush under way, as after the forced flush of a rewrite.
- AofFsync: descriptors are never reused, lazy freeing and plain close jobs are not modelled.
- AofRewrite.RewriteCollection: one loop stands for the four loops over lists, sets, sorted sets and hashes; encodings of the collections are not modelled, and write errors end the rewrite outside the model.
- AofDataset.Exec: commands other than those a rewrite emits do nothing; scores are kept in printed form; expires are 64-bit numbers that are not negative. Streams, modules and functions are not modelled.
- AofManifestText.LoadManifest: numbers beyond 64 bits and NUL bytes in the file are not modelled.
- SdsArgs.SplitLine: isspace and isprint are those of the C locale.
- AclSelector.Selector.SetCommandBit: the bitmap is an array of booleans; its packing into words is not modelled.
- AclSelector.Selector.SetSelector: rule strings hold no blanks, quotes or NUL; rules about keys and channels count as not understood; error codes and the logging of deprecated rules are not modelled; the table of first arguments is a map.
- AclSelector.Selector.MayRun: the part about commands; keys, channels and several selectors are not modelled.
- AclSelector.Selector.FromOps: takes rule strings about commands, already split; parentheses around them are not modelled.
- AclSelector.Selector.Recompute: for one selector, whose rules are all known to the new table; the loop over all users only repeats it.
- BitCount.Popcount: the table of ones per byte is the function that counts them.
- BitCount.BitCountCommand: looking up the key and parsing the arguments; the same holds for the other bitmap commands.
- BitField.SetField: growing the string before a write is a precondition, here and for the other writes; a difference that overflows in signed C arithmetic wraps.
- BitOp.BitOpCommand: words are loaded in little-endian order; storing the result under the target key is not modelled.
- Blocked.Server.Reprocess: what a command does is a parameter: the signals it sends, and whether it finishes or blocks again.
- Blocked.Server.ServeOne: serving a module client only sends its signals; it is unblocked later, which is not modelled.
- Blocked.Server.HandleRound: one round of the outer loop; whether the rounds ever end depends on the commands.
- Blocked.Server.UnblockClient: the lists of clients waiting for replicas, postponed or served by modules are not modelled.
- The 16-bit CRC routines, which nothing here uses.
