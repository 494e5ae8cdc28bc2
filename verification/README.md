# Vortek in Dafny

A model of the Vortek server, a store speaking the Redis serialization protocol (RESP2), and
proofs of what it keeps: the incremental parser and the serializer, the timed key-value store
with its background sweep, the command handlers, the append-only file and its recovery, the
pub/sub broker, and the connection as a machine of completion callbacks.

There are two layers. The imperative one has the form of the program: `RespParser`, `KvStore`,
`AofPersistence`, `PubSubBroker` and `Connection` are classes, and the loops of the handlers are
loops. Each of its methods is proved equal to a function of the old state. The second layer is
those functions (`Decode`, `Exec`, `Handle`, `React`), and the theorems are about them. What each
of them computes is also said without naming it: by the grammar of the protocol, by the numbers
that texts denote, and by a law for each command from the name and arguments that a client sends.

| files | contents |
|---|---|
| `Bytes`, `Numbers`, `Resp`, `RespTheorems`, `Grammar`, `Parser` | byte strings, decimal texts, RESP2, its grammar and the parser |
| `Store`, `Commands`, `Handlers` | the timed store, the commands and their handlers |
| `Names`, `Arity`, `Laws` | what a client may send, and what each command then does, by its name |
| `Runs`, `StoreTheorems`, `Expiry`, `Strings`, `Families`, `Lists` | what commands and runs of commands keep |
| `Aof`, `Recovery` | the append-only file, crashes and replay |
| `PubSub`, `Subscriptions` | the broker |
| `Connection`, `ConnectionObject`, `ConnectionTheorems`, `Requests`, `Authentication`, `Segmentation`, `Replies`, `StreamReplies`, `Framing`, `Collections`, `Logging` | the connection |
| `Server` | many connections over one store, file and broker |

How the surroundings enter the model:

- Bytes are characters, one for each byte, and time is an integer of nanoseconds.
- Each lock acquisition of a handler is given a `Tick`: the clock before the lock, the sweeps that
  ran since the last one, and the clock readings under the lock. A handler sees an arbitrary
  sequence of them, so a sweep may run between its lookup and its write.
- Each request is served in a `Scene`: those clock readings and sweeps, the order in which hash
  tables are walked, and the replies of INFO, READY, METRICS and PUBLISH. Every request of every
  read has its own. The text of the exception for a wrong type is a parameter of a connection.
- `Conn` carries the history of bytes accepted and written, and the numbers of reads and writes
  started and not completed, so that the invariants can speak of them.

The model follows the code also where the documentation, or a reader, would expect otherwise:

- COMPATIBILITY.md promises WRONGTYPE for every cross-type operation; GET and the counters throw
  instead, and the connection answers with the text of the exception (`Families.WrongTypeOutcome`).
- README.md promises that write commands are replayed on startup. Replay restarts every lifetime
  and does not repeat the passing of time, so a deadline reached before the restart can change
  the result (`Recovery.ReachedDeadlineDiverges`).
- The reply to an unknown command repeats the name, so a name with CRLF breaks the framing of the
  reply (`Replies.OneReplyPerCommand` has the exact condition).
- DECRBY of -2^63 is refused even where the exact result is an int64 (`Families.CounterExact`).

## Model

| member | source | states |
|---|---|---|
| `RespTheorems.ChunkIndependence` | src/protocol/resp_parser.cpp:12-21 | For every starting buffer, every stream and every partition of it, feeding chunk by chunk and draining gives the same values, the same error verdict and the same leftover as one feed of the whole |
| `RespTheorems.DrainThenDrain` | src/protocol/resp_parser.cpp:51-65 | Draining a prefix and then its leftover with more bytes is draining the whole, errors included |
| `RespTheorems.DecodeLocal` | src/protocol/resp_parser.cpp:51-152 | A completed parse depends only on the bytes it consumed: any buffer agreeing on them gives the same value and end |
| `RespTheorems.DecodeFailStable` | src/protocol/resp_parser.cpp:51-152 | A protocol error, with its exact reason, is the same whatever bytes follow |
| `RespTheorems.DecodeStable` | src/protocol/resp_parser.cpp:51-152 | Only need-more can change when bytes are appended |
| `RespTheorems.StrictPrefixNeedsMore` | src/protocol/resp_parser.cpp:39-152 | No strict prefix of a complete value completes or errors |
| `RespTheorems.RoundTrip` | src/protocol/resp_serializer.hpp:14-43 | Parsing after serializing is the identity with any bytes behind it, for int64 integers, CRLF-free lines and int64-sized data, nested arrays included |
| `Grammar.CompletesEncodings` | src/protocol/resp_parser.cpp:51-152 | The parser completes with a value after n bytes if and only if those n bytes encode the value by the rules of RESP2, with two bytes of any kind closing a bulk string, and whatever bytes follow |
| `Grammar.ReportsRefused` | src/protocol/resp_parser.cpp:51-152 | It throws a given error if and only if the bytes, at their start or after the whole elements of arrays still open, begin with a front that no value has and that error names: another type byte, a line that is no int64, a length or count below -1 |
| `Grammar.WireIsStrict` | src/protocol/resp_serializer.hpp:14-43 | What the serializer writes encodes the value by those rules with CRLF closing every bulk string |
| `Numbers.ParseMeaning` | src/protocol/resp_parser.cpp:85-96 | A text is read as n if and only if it is decimal digits, at least one, after an optional minus sign, that denote n in base ten, and n is an int64 |
| `Numbers.DenotesOne` | src/protocol/resp_parser.cpp:85-96 | A text denotes at most one number |
| `Numbers.PrintMeaning` | src/protocol/resp_serializer.hpp:26-28 | What is printed for n denotes n, and no shorter text does |
| `RespTheorems.DrainWireAll` | src/protocol/resp_serializer.hpp:14-43 | Any concatenation of serialized values drains to exactly those values with nothing left |
| `RespTheorems.UniqueDecoding` | src/protocol/resp_serializer.hpp:14-43 | Two sequences of such values with the same bytes are the same sequence |
| `RespTheorems.DecodedIsWireable` | src/protocol/resp_parser.cpp:39-152 | Every value the parser can yield meets the round trip conditions, so parse after serialize is the identity on parser outputs |
| `RespTheorems.DrainRest` | src/protocol/resp_parser.cpp:12-21 | After a drain the leftover is a suffix of the input that itself needs more or fails with the reported violation |
| `RespTheorems.ThreeBytesPerNode` | src/protocol/resp_parser.cpp:51-152 | A completed value consumes at least three bytes per node of its tree |
| `RespTheorems.DrainBound` | src/protocol/resp_parser.cpp:124-152 | A drain of n bytes yields at most n/3 values, and bytes not left over pay three per node |
| `RespTheorems.CompletePartDrains` | src/persistence/aof_persistence.cpp:116-160 | The part of a buffer before its first incomplete or bad value drains to the same values with nothing left |
| `Parser.RespParser.Feed` | src/protocol/resp_parser.cpp:12-21 | Appends, and erases exactly the bytes of the value it returns; keeps the buffer when it needs more or throws |
| `Parser.RespParser.ReadLine` | src/protocol/resp_parser.cpp:39-45 | The text before the first CRLF and the offset after it, or nothing when there is none |
| `Parser.RespParser.Parse` | src/protocol/resp_parser.cpp:51-65 | The recursive offset-based parser computes the suffix specification at every offset, also beyond the end |
| `Parser.RespParser.ParseInteger` | src/protocol/resp_parser.cpp:85-96 | Refines the integer case: whole line, int64 range, error otherwise |
| `Parser.RespParser.ParseBulkString` | src/protocol/resp_parser.cpp:98-122 | Refines the bulk case: null for -1, negative lengths refused, the two bytes after the data counted but not checked |
| `Parser.RespParser.ParseArray` | src/protocol/resp_parser.cpp:124-152 | Refines the array case: null for -1, negative counts refused |
| `Parser.RespParser.ParseElements` | src/protocol/resp_parser.cpp:141-151 | The element loop yields all elements, the first need-more or the first error |
| `Parser.SerializeArray` | src/protocol/resp_serializer.hpp:34-39 | The appending loop produces the wire form of the array |
| `Bytes.PrintParse` | src/protocol/resp_parser.cpp:85-96 | Reading printed decimal gives the number back exactly when it is an int64, and nothing otherwise |
| `Bytes.FindCrlf` | src/protocol/resp_parser.cpp:35-37 | The first CRLF, or none exactly when there is none |
| `Store.KvStore.Set` | src/core/kv_store.cpp:22-29 | New entry with the deadline read before the lock, other keys untouched, sweeps before the lock allowed |
| `Store.KvStore.Get` | src/core/kv_store.cpp:31-37 | The value when present and not expired; nothing but sweeps changes the table |
| `Store.KvStore.Del` | src/core/kv_store.cpp:39-48 | Erases an expired key too, but counts only a live one |
| `Store.KvStore.Exists` | src/core/kv_store.cpp:50-54 | Live presence |
| `Store.KvStore.Expire` | src/core/kv_store.cpp:56-63 | Sets the deadline on a live key only, with the later of two clock readings |
| `Store.KvStore.Ttl` | src/core/kv_store.cpp:65-76 | -2, -1 or the whole milliseconds left, never negative |
| `Store.KvStore.Persist` | src/core/kv_store.cpp:78-85 | Clears the deadline of a live key only |
| `Store.KvStore.Sweep` | src/core/kv_store.cpp:121-134 | The erasing iteration leaves exactly the entries not expired |
| `Expiry.SweepsExact` | src/core/kv_store.cpp:121-134 | After any sweeps an entry is there, unchanged, if and only if it was there and no sweep came at or after its deadline |
| `Runs.SweepTransparency` | src/core/kv_store.cpp:22-134 | Two runs with the same commands and clock readings but any sweeps at any points, also between lookup and write of one handler, give the same outcomes and the same visible contents at every later time |
| `Runs.ExecHidden` | src/core/kv_store.cpp:22-134 | The one-command step of that simulation, for every handler |
| `Expiry.WrittenLifetime` | src/core/kv_store.cpp:22-37 | A written key is seen until its deadline and not after, for ever without one |
| `Expiry.ExpireLifetime` | src/core/kv_store.cpp:56-85 | EXPIRE ends a live key exactly at the new deadline and revives nothing; PERSIST makes a live key stay |
| `Expiry.OthersKeepLifetime` | src/core/kv_store.cpp:22-134 | A command that does not name a key changes neither its value nor the time it is seen, under any sweeps |
| `Expiry.ExpireCommand` | src/commands/handlers/generic_cmds.cpp:53-62 | EXPIRE answers whether the key was alive; a live key is seen until its seconds, counted from the second clock reading, run out, and no other key is revived, under any sweeps |
| `Expiry.ExpireRefused` | src/commands/handlers/generic_cmds.cpp:53-62 | EXPIRE with seconds that denote no int64, or a negative one, is refused and changes nothing |
| `Expiry.PersistCommand` | src/commands/handlers/generic_cmds.cpp:75-79 | PERSIST answers whether the key was alive, and a live key is seen from then on |
| `Expiry.TtlCommand` | src/commands/handlers/generic_cmds.cpp:65-72 | TTL rounds up: its answer brackets the time left to the second, -1 and -2 are given exactly to keys without deadline and to absent keys, and nothing visible changes |
| `Handlers.ParseCommandValue` | src/commands/command.hpp:22-45 | The loop accepts exactly non-empty arrays of bulk strings, upper-casing the name |
| `Names.RequestMeaning` | src/commands/command.hpp:22-45 | A value is a command exactly when it is an array of bulk strings, the first of which spells the name in letters of either case, and the others are its arguments as they are |
| `Names.UpperIsSpelling` | src/commands/command.hpp:34-36 | A text is upper-cased to a word exactly when the word has its capital for each of the 26 small letters and everything else as it is |
| `Names.UnknownRefused` | src/commands/dispatcher.cpp:16-21 | Exactly 35 names are registered; any other is answered with an error that repeats it, and changes nothing |
| `Arity.ArityLaw` | src/commands/handlers/list_cmds.cpp:33-176 | By name, for all five handler files: a command is refused for the number of its arguments if and only if it does not take that many, and then nothing changes |
| `Handlers.ScanSetOptions` | src/commands/handlers/string_cmds.cpp:35-65 | The option loop refines the recursive scan |
| `Strings.OptionsMeaning` | src/commands/handlers/string_cmds.cpp:35-65 | The option loop accepts exactly the arguments that spell a list of options, and reads off that list its flags and its last lifetime |
| `Strings.SetStores` | src/commands/handlers/string_cmds.cpp:23-76 | NX refuses a live key and XX an absent one with a null and no visible change; otherwise the key holds the value, for ever or until the last lifetime named runs out |
| `Strings.SetRefused` | src/commands/handlers/string_cmds.cpp:23-68 | SET is refused with a given error if and only if its arguments call for it: too few of them, the first that is no option, lacks its amount or has one that denotes no positive int64, or NX together with XX; then nothing changes |
| `Strings.GetAnswers` | src/commands/handlers/string_cmds.cpp:80-87 | GET answers the string that the key holds, null when it holds nothing, and throws on another type, under any sweeps |
| `Strings.SetThenGet` | src/commands/handlers/string_cmds.cpp:23-87 | A SET that stores, any commands that do not name the key, under any sweeps, and then GET: it answers the value while the lifetime lasts and null afterwards |
| `Handlers.CmdSet` | src/commands/handlers/string_cmds.cpp:23-76 | The handler refines the command specification: outcome and whole store |
| `Handlers.ApplyDelta` | src/commands/handlers/string_cmds.cpp:91-110 | Read, overflow guard and write equal the exact addition; the int64 arithmetic inside never overflows |
| `Handlers.CmdDecrBy` | src/commands/handlers/string_cmds.cpp:138-152 | Refines the command specification; the negation is safe because -2^63 is refused first |
| `Handlers.PushAll` | src/commands/handlers/list_cmds.cpp:33-64 | The push loops: prepending one by one, or appending |
| `Handlers.CmdPop` | src/commands/handlers/list_cmds.cpp:67-108 | LPOP and RPOP, deleting the key that becomes empty |
| `Handlers.CollectRange` | src/commands/handlers/list_cmds.cpp:122-153 | The clamping assignments and the loop, every access in bounds |
| `Handlers.CmdLRange` | src/commands/handlers/list_cmds.cpp:122-153 | Refines the command specification; the numbers are looked at only when the key exists |
| `Handlers.AddMembers` | src/commands/handlers/set_cmds.cpp:29-45 | The insertion loop: the union, and a count equal to the growth however often an argument repeats |
| `Handlers.RemoveMembers` | src/commands/handlers/set_cmds.cpp:49-67 | The erasing loop: the difference, and a count equal to the shrinkage |
| `Handlers.ListMembers` | src/commands/handlers/set_cmds.cpp:70-81 | The listing loop of SMEMBERS: one bulk string for each element the walk of the table meets |
| `Handlers.ListFields` | src/commands/handlers/hash_cmds.cpp:84-97 | The listing loop of HGETALL: each field the walk of the table meets, followed by its value |
| `Handlers.CmdSRem` | src/commands/handlers/set_cmds.cpp:49-67 | Refines the command specification, deleting the key that becomes empty |
| `Handlers.PutPairs` | src/commands/handlers/hash_cmds.cpp:29-47 | The pair loop: last value wins, and a count of new fields |
| `Handlers.RemoveFields` | src/commands/handlers/hash_cmds.cpp:63-81 | The erasing loop: other fields keep their values, and a count of removed ones |
| `Handlers.CmdHDel` | src/commands/handlers/hash_cmds.cpp:63-81 | Refines the command specification, deleting the key that becomes empty |
| `Handlers.Dispatch` | src/commands/dispatcher.cpp:16-33 | Every registered name reaches its handler and every other name gets the error; each handler, with its branches, loops, errors and exceptions, has the outcome and the whole store of the command specification, at any clock readings and with sweeps before each access |
| `Strings.DelCounts` | src/commands/handlers/generic_cmds.cpp:33-40 | DEL answers the number of different keys named that were alive when it first came to them, clock and sweeps moving on meanwhile |
| `Strings.ExistsCounts` | src/commands/handlers/generic_cmds.cpp:43-50 | EXISTS answers the number of positions that name a key alive when it came to them |
| `Strings.DelCommand` | src/commands/handlers/generic_cmds.cpp:33-40 | DEL by name: that count as an integer, and afterwards no key it named is seen |
| `Strings.ExistsCommand` | src/commands/handlers/generic_cmds.cpp:43-50 | EXISTS by name: that count as an integer |
| `StoreTheorems.RecordsTheWriters` | src/persistence/aof_persistence.cpp:70-79 | A name is recorded if and only if some arguments, store and clock make the command change the store |
| `StoreTheorems.FailureAtomic` | src/commands/dispatcher.cpp:16-21 | An error reply, an exception or a command that is not recorded leaves the store as it was, but for what the sweeps that ran meanwhile took; without a sweep, exactly as it was |
| `StoreTheorems.FailureInvisible` | src/persistence/aof_persistence.cpp:70-79 | A command that fails, throws or is not recorded changes nothing a client can see, then or later |
| `StoreTheorems.ExecNoEmpty` | src/commands/handlers/list_cmds.cpp:33-108 | Every command keeps: no stored list, set or hash is empty |
| `StoreTheorems.ReachableNoEmpty` | src/commands/handlers/set_cmds.cpp:29-67 | Over any run, no stored list, set or hash is ever empty |
| `StoreTheorems.ExecFrame` | src/commands/dispatcher.cpp:16-33 | A command leaves every key it does not name as it was, but for what the sweeps that ran meanwhile took |
| `StoreTheorems.ExecLocal` | src/commands/dispatcher.cpp:16-33 | Its outcome and what it leaves depend only on the keys it names, with any clock and sweeps |
| `StoreTheorems.DisjointCommute` | src/commands/dispatcher.cpp:16-33 | Any two commands naming disjoint keys give the same store and the same outcomes in either order, each at its own clock readings |
| `StoreTheorems.DisjointCommuteSwept` | src/commands/dispatcher.cpp:16-33 | At one instant the same holds with any sweeps before, between and inside the commands, different ones in the two orders: same outcomes, and the same visible contents from then on |
| `StoreTheorems.ClockFree` | src/core/kv_store.cpp:22-85 | Where no key has a deadline and none is set, clock and sweeps make no difference |
| `Families.CounterExact` | src/commands/handlers/string_cmds.cpp:91-152 | A well-formed counter step on a key that reads as a number, canonical or not, or is absent, succeeds exactly when the exact sum is an int64 and the step is not DECRBY of -2^63; the text stored is the canonical decimal of the sum, and a step that is refused is answered with the overflow error and leaves the value |
| `Families.NotANumberRefused` | src/commands/handlers/string_cmds.cpp:91-110 | On a stored text that denotes no int64 a counter step is refused as not an integer, and the text stays |
| `Families.BadAmountRefused` | src/commands/handlers/string_cmds.cpp:125-152 | INCRBY and DECRBY of an amount that denotes no int64 are refused, and nothing changes |
| `Families.CounterRun` | src/commands/handlers/string_cmds.cpp:91-152 | Over any run, a counter reads as its start plus the sum of the granted steps; its text is canonical as soon as one was granted |
| `Families.PushFrontReverses` | src/commands/handlers/list_cmds.cpp:33-47 | LPUSH leaves its arguments in reverse order before the old list |
| `Families.PushPopInverse` | src/commands/handlers/list_cmds.cpp:33-108 | A push of one element and a pop on the same side give it back and restore the list, the absent key included |
| `Families.PopTakesTheEnd` | src/commands/handlers/list_cmds.cpp:67-108 | LPOP answers what LINDEX 0 names, RPOP what LINDEX -1 names |
| `Families.ListConserves` | src/commands/handlers/list_cmds.cpp:33-108 | One command of any kind: elements after plus popped equals elements before plus pushed, as multisets |
| `Families.ListRun` | src/commands/handlers/list_cmds.cpp:33-108 | Over any run, elements left plus elements popped equals elements at the start plus elements pushed, as multisets |
| `Families.LengthReported` | src/commands/handlers/list_cmds.cpp:111-119 | LLEN after any run answers the start length plus pushes minus pops |
| `Families.SetRun` | src/commands/handlers/set_cmds.cpp:29-67 | Over any run, membership is what the last SADD or SREM naming the element says, and the size is the start size plus added minus removed replies |
| `Families.SetReported` | src/commands/handlers/set_cmds.cpp:84-103 | SCARD and SISMEMBER after any run answer that size and that membership |
| `Families.PutFieldsLast` | src/commands/handlers/hash_cmds.cpp:29-47 | Of repeated fields in one HSET the last value wins, other fields stay |
| `Families.HashRun` | src/commands/handlers/hash_cmds.cpp:29-81 | Over any run, a field has the value of the last HSET naming it unless a later HDEL did, and the size is the start size plus added minus removed replies |
| `Families.HashReported` | src/commands/handlers/hash_cmds.cpp:50-119 | HLEN, HEXISTS and HGET after any run answer that size, presence and value |
| `Families.WrongTypeOutcome` | src/commands/handlers/string_cmds.cpp:80-110 | On a value of another type, with a deadline or without, the collection commands refuse, GET and the counters throw, and the value stays |
| `Families.TimelyMeets` | src/core/kv_store.cpp:22-134 | The condition of these lemmas on the clock holds of every run in time that ends before the deadline of the key |
| `Collections.WholeReported` | src/commands/handlers/hash_cmds.cpp:84-97 | The reply of HGETALL lists each field once followed by its value, that of SMEMBERS (src/commands/handlers/set_cmds.cpp) each member once, in whatever order the table is walked |
| `Lists.RangeMeaning` | src/commands/handlers/list_cmds.cpp:122-153 | For all indices the clamped slice is the elements whose position lies between the two, negative ones counted from the end |
| `Lists.RangeReported` | src/commands/handlers/list_cmds.cpp:122-153 | LRANGE on a list answers exactly those elements in order |
| `Lists.IndexReported` | src/commands/handlers/list_cmds.cpp:156-176 | LINDEX answers the element at the position, or null when there is none |
| `Lists.RangeIsIndex` | src/commands/handlers/list_cmds.cpp:122-176 | A range of one index is the single element of LINDEX, or empty exactly when that is null |
| `Lists.RangesJoin` | src/commands/handlers/list_cmds.cpp:122-153 | Adjacent ranges join |
| `Laws.GetLaw` | src/commands/handlers/string_cmds.cpp:80-87 | GET over a span of time: the string that the key holds, or null, and it stays |
| `Laws.LPushLaw` | src/commands/handlers/list_cmds.cpp:33-47 | LPUSH: the items in reverse before the old list, and the new length |
| `Laws.RPushLaw` | src/commands/handlers/list_cmds.cpp:50-64 | RPUSH: the items in order after the old list, and the new length |
| `Laws.LPopLaw` | src/commands/handlers/list_cmds.cpp:67-86 | LPOP: the first element, the rest left, an emptied key absent, and null on an absent key |
| `Laws.RPopLaw` | src/commands/handlers/list_cmds.cpp:89-108 | RPOP: the last element, the rest left, an emptied key absent, and null on an absent key |
| `Laws.LLenLaw` | src/commands/handlers/list_cmds.cpp:111-119 | LLEN: the length, the list left |
| `Laws.LRangeLaw` | src/commands/handlers/list_cmds.cpp:122-153 | LRANGE: the elements whose position lies between the two numbers that the texts denote, negative ones counted from the end |
| `Laws.LRangeRefused` | src/commands/handlers/list_cmds.cpp:122-153 | LRANGE on a list with a text that denotes no int64 is refused |
| `Laws.LIndexLaw` | src/commands/handlers/list_cmds.cpp:156-176 | LINDEX: the element at the position, or null |
| `Laws.LIndexRefused` | src/commands/handlers/list_cmds.cpp:156-176 | LINDEX on a list with a text that denotes no int64 is refused |
| `Laws.SAddLaw` | src/commands/handlers/set_cmds.cpp:29-45 | SADD: the union, and how many members are new |
| `Laws.SRemLaw` | src/commands/handlers/set_cmds.cpp:49-67 | SREM: the difference, how many members went, and an emptied key absent |
| `Laws.SetReadLaw` | src/commands/handlers/set_cmds.cpp:70-103 | SCARD, SISMEMBER and SMEMBERS: size, membership and the whole set, which stays |
| `Laws.HSetLaw` | src/commands/handlers/hash_cmds.cpp:29-47 | HSET: each field named has the last value named for it, the others keep theirs, and how many are new |
| `Laws.HDelLaw` | src/commands/handlers/hash_cmds.cpp:63-81 | HDEL: the fields named are gone, the others keep their values, how many went, and an emptied key absent |
| `Laws.HashReadLaw` | src/commands/handlers/hash_cmds.cpp:50-119 | HGET, HEXISTS, HLEN and HGETALL: value or null, presence, size and all fields |
| `Laws.PingLaw` | src/commands/handlers/generic_cmds.cpp:24-86 | PING and HEALTH: their fixed replies, or the argument of PING back, and the store untouched |
| `Aof.AofPersistence.Log` | src/persistence/aof_persistence.cpp:81-94 | Appends the frame of the command |
| `Aof.AofPersistence.Replay` | src/persistence/aof_persistence.cpp:100-164 | The drain loop dispatches exactly the commands of the complete values in order, skipping other values, and truncates to the complete part |
| `Recovery.CommandRoundTrip` | src/persistence/aof_persistence.cpp:81-94 | A command is read back from its logged frame |
| `Recovery.RecoveryIdempotent` | src/persistence/aof_persistence.cpp:116-160 | On arbitrary file content, replaying the truncated file dispatches the same commands and truncates nothing more |
| `Recovery.AppendsRecovered` | src/persistence/aof_persistence.cpp:100-164 | Frames appended after recovering arbitrary content are recovered too, after the old commands |
| `Recovery.TornTailDropped` | src/persistence/aof_persistence.cpp:116-160 | A torn last frame is dropped and nothing else |
| `Recovery.TornAfterAppends` | src/persistence/aof_persistence.cpp:100-164 | The same on top of what was recovered from arbitrary content |
| `Recovery.CrashRecovery` | src/persistence/aof_persistence.cpp:81-164 | Over any number of sessions each ended by a crash in the middle of a frame, the file after replay is exactly the frames of all completely logged commands, dispatched in order |
| `Recovery.TwoClocks` | src/persistence/aof_persistence.cpp:121-150 | One command run under two clocks on stores with the same values leaves the same values, while no deadline is reached |
| `Recovery.ReplaySimulates` | src/persistence/aof_persistence.cpp:121-150 | The two-clock simulation over whole runs: the live run of all commands and the replay of the recorded ones stay on the same values and the same keys with a deadline |
| `Recovery.RestartRestores` | src/persistence/aof_persistence.cpp:100-164 | One more session after any number of earlier ones: what the next replay builds has the values and the keys with a deadline of the store at the crash, when no deadline is reached in the session or in either replay |
| `Recovery.RestartExact` | src/persistence/aof_persistence.cpp:121-150 | Without deadlines it builds exactly the store at the crash, on any clocks and with any sweeps |
| `Recovery.ReplayExact` | src/persistence/aof_persistence.cpp:121-150 | Without deadlines replay restores the store exactly, whatever the clocks and sweeps |
| `Recovery.ReachedDeadlineDiverges` | src/persistence/aof_persistence.cpp:121-150 | A deadline reached in the live run and not in the replay: SET PX, expiry and SET NX come back with the old value |
| `PubSub.PubSubBroker.Subscribe` | src/server/pubsub_broker.cpp:7-19 | Replaces the callback in place or appends, and counts the channel |
| `PubSub.PubSubBroker.Unsubscribe` | src/server/pubsub_broker.cpp:21-34 | Removes the id, erases an empty channel, and counts what is left |
| `PubSub.PubSubBroker.UnsubscribeAll` | src/server/pubsub_broker.cpp:36-55 | The erasing walk of the table: the id leaves every channel, empty ones go, and the channels left are returned, each once, in the order of the walk |
| `PubSub.PubSubBroker.Publish` | src/server/pubsub_broker.cpp:57-73 | Invokes each subscriber of the snapshot once, in list order |
| `PubSub.Enroll` | src/server/pubsub_broker.cpp:7-19 | The search loop with in-place replacement |
| `PubSub.RemoveIf` | src/server/pubsub_broker.cpp:21-34 | The removal keeps the other subscribers in order |
| `PubSub.ActAgrees` | src/server/pubsub_broker.cpp:7-55 | Every join and leave keeps: a connection believes it is on a channel exactly when the broker lists it there, no list is empty or has an id twice |
| `PubSub.LeaveAllAgrees` | src/server/pubsub_broker.cpp:36-55 | Leaving all returns exactly the channels the connection believes it is on |
| `PubSub.OthersUndisturbed` | src/server/pubsub_broker.cpp:7-55 | No action of one connection changes which other subscribers a channel lists, nor their order |
| `PubSub.PublishReaches` | src/server/pubsub_broker.cpp:57-73 | When table and beliefs agree, publishing calls each believing connection exactly once and no other |
| `Subscriptions.SubscribeJoins` | src/server/connection.cpp:212-234 | SUBSCRIBE on a connection is the join of the hub |
| `Subscriptions.UnsubscribeLeaves` | src/server/connection.cpp:236-263 | UNSUBSCRIBE, with channels or without, is the leave of the hub |
| `ConnectionObject.Connection.constructor` | src/server/connection.cpp:61-104 | A started connection is open, reading, and authenticated exactly when there is no password |
| `ConnectionObject.Connection.HandleData` | src/server/connection.cpp:131-198 | The loop over the parser, the size limit and the choice of writing or reading on refine the event machine |
| `ConnectionObject.Connection.ServeChunk` | src/server/connection.cpp:143-192 | The loop over fed values equals the recursion over the buffer |
| `ConnectionObject.Connection.ServeOrdinary` | src/server/connection.cpp:181-192 | Logs before dispatching; an exception becomes an error reply and resets the parser |
| `ConnectionObject.Connection.ReplyTo` | src/commands/handlers/set_cmds.cpp:70-81 | The reply value of each outcome; the arrays of SMEMBERS and HGETALL are built by walking the table |
| `ConnectionObject.Connection.HandleSubscribe` | src/server/connection.cpp:212-234 | The loop over channels, broker and replies |
| `ConnectionObject.Connection.HandleUnsubscribe` | src/server/connection.cpp:236-263 | Both forms, the empty one listing the channels left |
| `ConnectionObject.Connection.DoWrite` | src/server/connection.cpp:277-292 | Queues or closes at the limit, and starts a write when none is out |
| `ConnectionObject.Connection.OnReadDone` | src/server/connection.cpp:110-129 | The read completion is the read event of the machine |
| `ConnectionObject.Connection.OnReadFailed` | src/server/connection.cpp:118-125 | A failed read closes the socket |
| `ConnectionObject.Connection.OnWriteFailed` | src/server/connection.cpp:308-313 | A failed write closes the socket and leaves the queue as it was |
| `ConnectionObject.Connection.OnWriteDone` | src/server/connection.cpp:308-331 | The write completion is the write event of the machine |
| `ConnectionObject.Connection.OnPushed` | src/server/connection.cpp:265-275 | A posted message is the push event of the machine |
| `ConnectionObject.Connection.OnIdleExpired` | src/server/connection.cpp:342-358 | The idle timer is the idle event of the machine |
| `ConnectionTheorems.DoWriteSafe` | src/server/connection.cpp:277-292 | Queueing keeps: bytes written, in flight and queued are all accepted bytes in order, and the pending count is their size within the limit |
| `ConnectionTheorems.WriteDoneExact` | src/server/connection.cpp:308-331 | A completion, before or after the socket was closed, subtracts exactly its bytes, which are the next ones accepted |
| `ConnectionTheorems.NeverClamps` | src/server/connection.cpp:314-317 | In every reachable state, open or closed, the saturating branch of the subtraction is not taken |
| `ConnectionTheorems.HandleSound` | src/server/connection.cpp:110-333 | Every event keeps the write queue exact, at most one read and one write out, some operation out while open, a parser buffer within the limit and without a complete value |
| `ConnectionTheorems.ReachableSound` | src/server/connection.cpp:110-333 | So does every run; the socket never reopens and closing is never unset |
| `ConnectionTheorems.ClosingNeverReads` | src/server/connection.cpp:135-141 | Once closing after a write, in every later state, open or closed, no read is out and none can complete |
| `ConnectionTheorems.ClosingDrains` | src/server/connection.cpp:308-331 | Over any events, pushes included, a connection that is to be closed is closed once more writes have completed than buffers were queued and messages pushed |
| `Authentication.LockedServe` | src/server/connection.cpp:159-167 | Before authentication a request changes nothing shared, and only AUTH with the password unlocks |
| `Authentication.AuthGate` | src/server/connection.cpp:131-210 | Over any events, a connection still locked at the end has changed neither store, file nor broker |
| `Authentication.OnlyPasswordUnlocks` | src/server/connection.cpp:131-210 | Over any events, a connection that was unlocked was unlocked by a read that completes an AUTH whose one argument is the configured password |
| `Authentication.SharedNeedsPassword` | src/server/connection.cpp:61-210 | A new connection to a server with a password has changed store, file or broker only if its client sent that password before |
| `Requests.DispatcherLaw` | src/server/connection.cpp:181-192 | A command other than AUTH, SUBSCRIBE and UNSUBSCRIBE is logged when it is a write, run, and answered with the bytes of exactly the reply its outcome calls for: the value, the error text, the exception text after ERR, the whole collection in some order; only an exception resets the parser |
| `Requests.AuthLaw` | src/server/connection.cpp:200-210 | AUTH: unlocks exactly with the password, never locks, changes nothing else, and its four answers |
| `Requests.LockedLaw` | src/server/connection.cpp:164-167 | Before authentication any other command is answered NOAUTH and changes nothing |
| `Requests.NotACommandLaw` | src/server/connection.cpp:151-157 | A value that is no command is answered with the protocol error, and what is buffered is dropped |
| `Requests.SubscribeLaw` | src/server/connection.cpp:212-234 | SUBSCRIBE by name is the join of the hub, with one triple for each channel |
| `Requests.SubscribeRefused` | src/server/connection.cpp:212-216 | SUBSCRIBE without a channel or without a broker is refused and joins nothing |
| `Requests.UnsubscribeLaw` | src/server/connection.cpp:236-263 | UNSUBSCRIBE by name is the leave of the hub, of the channels named or of all |
| `Requests.UnsubscribeUnbrokered` | src/server/connection.cpp:236-240 | Without a broker UNSUBSCRIBE has no reply, changes nothing shared, and starts a read exactly when the socket is open and none is out |
| `Requests.WriteLaw` | src/server/connection.cpp:277-292 | On an open socket data is accepted whole exactly when the pending bytes stay within the limit; otherwise the socket closes and nothing else changes |
| `Requests.TooLargeLaw` | src/server/connection.cpp:135-141 | A read over the request limit runs nothing, drops the buffer, is answered, and marks the connection for closing |
| `Requests.ViolationLaw` | src/server/connection.cpp:189-198 | Bytes that the protocol refuses are dropped and answered with the rule they break, and the connection goes on |
| `Requests.FailureLaw` | src/server/connection.cpp:118-125 | A failed read, a failed write and an idle timeout close the socket and change nothing shared |
| `Segmentation.StreamRuns` | src/server/connection.cpp:131-198 | However a stream of dispatcher commands, deadlines included, is split into reads, with writes completing and messages pushed anywhere between, each command runs once, in order, in the scene of the read that completed it: final store and file bytes are those of running them one by one, and the client is sent the replies with the messages between them, as long as no limit closes the connection |
| `Segmentation.SegmentationIndependence` | src/server/connection.cpp:131-198 | Without deadlines store and file do not depend on the reads or their times at all, nor do the replies when hash tables are walked in the same order |
| `Segmentation.SentIsReplies` | src/server/connection.cpp:131-198 | Without pushed messages the client is sent exactly the replies |
| `StreamReplies.RepliesInOrder` | src/server/connection.cpp:131-198 | The bytes accepted for a stream of known commands drain to exactly one value per command, in order, and the i-th is the reply that the outcome of the i-th command, run in the store that the ones before it left, calls for |
| `Replies.OneReplyPerCommand` | src/commands/dispatcher.cpp:16-21 | What a client is sent for a command is one readable value if and only if: the exception text is free of CRLF, when it throws; the name is registered or free of CRLF, otherwise |
| `Replies.CrlfNameSplitsReply` | src/commands/dispatcher.cpp:19 | A name holding CRLF that breaks the framing of its reply |
| `Framing.ServeAnswers` | src/server/connection.cpp:143-192 | Every value served, AUTH and subscriptions included, is answered with exactly the bytes of its answers, unless the limit on pending bytes has closed the socket |
| `Framing.ViolationWhole` | src/server/connection.cpp:189-192 | The reply to any protocol error is one readable value: what it quotes is a line |
| `Framing.AcceptedIsWhole` | src/server/connection.cpp:131-333 | Over any events, the bytes accepted for the client are a sequence of whole values, when commands meet the condition of one reply per command, answers fit their headers and pushed frames are whole |
| `Framing.ClientReadsValues` | src/server/connection.cpp:131-333 | At any moment of any run of a new connection, the bytes written so far read as values without a protocol error |
| `Logging.ServeAllAccounts` | src/server/connection.cpp:181-192 | One read: the commands run are those of the values taken from the buffer while authenticated, AUTH, SUBSCRIBE and UNSUBSCRIBE apart; they explain the store, and the file gained exactly the frames of the write commands among them, each readable |
| `Logging.HandleAccounts` | src/server/connection.cpp:181-192 | The same for every event; only a read within the limit runs anything |
| `Server.EveryConnectionSound` | src/server/connection.cpp:110-333 | Over any interleaving of any number of connections, accepted and freed, every connection is sound between callbacks |
| `Server.ServerAgreed` | src/server/connection.cpp:212-263 | In every reachable state of the server the broker table and the subscription sets of all connections agree |
| `Server.ServerPublishes` | src/server/pubsub_broker.cpp:57-73 | At any moment of any run from an idle server, publishing calls one callback for each subscribed connection and no other |
| `Server.ServerLogs` | src/server/connection.cpp:181-184 | Over any run of the server, the commands of all clients in the order they were served explain the store, and the file gained the log of exactly the write commands among them |
| `Server.ServerRestart` | src/persistence/aof_persistence.cpp:100-164 | One life of the server from any file content, with any clients, ended by a crash while a frame is written or after it and before its command runs: the next start finds the commands found before and then exactly the write commands run or logged; its store is that of the crash, with the command logged last: exactly when no command sets a deadline, and with the same values and keys with a deadline when none is reached |
| `Server.CutDropped` | src/persistence/aof_persistence.cpp:116-160 | Of the file that a crash leaves, only a last frame that is not whole is dropped |
| `Server.ServerLives` | src/persistence/aof_persistence.cpp:100-164 | Over any number of lives, the file holds the write commands of all clients in all lives in order, and a new start has the store of a server that ran all their commands and never crashed: exactly without deadlines, and with the same values and keys with a deadline when none is reached |

## Left out

- RestartRestores: one way only, and so are the parts of `Server.ServerRestart` and `Server.ServerLives` about deadlines; a run in which a deadline is reached may still come back the same, and no condition that can be read off before the restart tells which.
- DisjointCommute: with sweeps at one clock reading only, as `DisjointCommuteSwept`; time does not run backwards, so at different readings only one of the two orders can happen.
- ListRun: a key that has a deadline is followed until the deadline and not beyond, where it loses its elements; the same holds of `SetRun`, `HashRun` and `CounterRun`.
- RepliesInOrder: without pushed messages between the replies; `Segmentation.StreamRuns` says where they come.
- StreamRuns: not for SUBSCRIBE, UNSUBSCRIBE or AUTH in the stream, nor for streams in which a command throws or a limit closes the connection, whose effect depends on where reads end.
- OneReplyPerCommand: the replies of the four commands that are parameters of the model are one value exactly when the parameter is.
- RoundTrip: sizes of data and arrays up to 2^63-1, which is what the parser reads as a length.
- INFO, READY, METRICS, the statistics counters and the wording of PUBLISH: text formatting over counters; they are registered names that do not touch the store.
- PUBLISH as a command: the wrapper over the broker's publish; messages reach a connection as push events with any frame, so the frame's building is not part of the model.
- Deadline arithmetic overflow for very long lifetimes: time is unbounded here.
- Allocation failure for huge array counts.
- Sockets, timers, the acceptor's client limit and signals: only their completions, as events.
- File open, flush and reopen failures: appends and truncation succeed, and a torn last frame is the only fault.
- Object lifetime: a connection is freed only when nothing is outstanding and the broker holds no callback of it; the destructor then has nothing to undo.
- Mutexes and hash tables as implementations: each store method is one step over a map.
- The order of replies across pipelined SUBSCRIBE and UNSUBSCRIBE, and what follows a parser reset: the model has them, no theorem speaks of them.
- Upper-casing is that of the C locale: ASCII letters only.
- `register_handler` and `make_default` as table building: the table is the fixed one.
- Configuration, command line, logger, benchmarks and packaging.
