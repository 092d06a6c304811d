# Time-series toolkit: index, hashes and configuration

A Dafny model of the parts of a C toolkit in which state, pointers and arithmetic meet, and proofs of
what they are for. `dafny verify dfyconfig.toml` checks all of it.

- **Skip list** (`SkipListSpec`, `SkipListLinks`, `SkipListUnlink`, `SkipList`). Nodes are heap objects
  with an array of links, one per level, that insert and remove rewrite in place. One ghost sequence,
  the level-0 order, determines every link: the level-i link of a node leads to the next node of level i
  or more. Insert and remove keep that for any level that the coin flips draw, and so the list is a
  finite map.
- **MD5** (`Bytes`, `Md5Spec`, `Md5Block`, `Md5`, `Md5Answers`). `Md5Spec` is RFC 1321 written with
  indices and whole messages; `Md5Block` holds the macros and the unrolled rounds, `Md5` the streaming
  context with its partial buffer and split counter. A ghost field holds all bytes so far. `Md5Answers`
  works out two of the known answers of the RFC.
- **Hashes** (`CrcSpec`, `CrcTables`, `Crc`, `JenkinsSpec`, `Jenkins`, `Murmur`, `ByteHashes`,
  `JumpHash`, `HashAnswers`). Each loop is proved against a plain function of the key, and the laws are
  proved about that function: fast forms are slow forms, mixing steps can be undone, and a localised
  difference between two keys is never lost. `HashAnswers` works out known answers, which hold the
  constants.
- **Configuration** (`Yaml`, `Validator`, `Text`, `ArrayStack`, `ParserSpec`, `Settings`, `Parser`,
  `PostValidate`, `ConfCreate`). A document is a tree, flattened into events. The validator is a machine
  that decides a grammar over these trees; the parser is a machine with a stack of scalars that agrees
  with a direct reading of the tree; the checks after parsing hold for any outcome of the two sorts.
  `ConfCreate` puts the three together.

Where the code does not do what it seems to be for, the model keeps the code:

- The tail of a skip list is allocated without a key (skip_list.c:64), and the insert search compares
  keys with it (skip_list.c:87, skip_list.c:93). The tail's key is therefore a parameter of the
  constructor, and `Insert` demands exactly the condition under which the search stops short of the
  tail. A tail key of 0 meets it for every key, and on an empty list nothing else does
  (`EmptyNeedsTail`, `InsertCanMissTheEnd`).
- Remove records one node per level (skip_list.c:122-138). With a repeated key the levels may record
  different nodes, and then it frees one that the list still leads to. `Remove` is stated for any list:
  it keeps the list well linked exactly under `FirstIsTallest`, that no later node of the key is taller
  than the first. A key that occurs at most once, or not at all, meets it (`OnceIsTallest`);
  `RemoveCanDangle` builds a list that does not.
- `md5_signature` calls the functions of md5.c by upper-case names (md5.c:268-270); they are read as the
  functions of the same file.
- `max_slots` is not set when a pool is begun (conf.c:21-42). What the memory of a new pool holds is a
  parameter of the parser, and a setting of `max_slots` is a duplicate unless that memory holds -1.
- A scalar with a NUL in it is copied by `strndup` only up to there, and the copy is then terminated at
  the full length, beyond its end (cstring.c:40-46, cstring.c:54-60). From such a scalar on, and from
  a number on that does not fit in an int, the program has no defined meaning: the model has the reason
  `Undefined` for both, and `Parse` and `Create` demand that reading the tree does not lead to it.
- The check for a shared address and port looks at neighbours, and the sort in front of it ignores the
  port (conf.c:924-929, conf.c:980-996). `RightIff` says for exactly which pools that is enough.
- For no buckets or fewer, `hash_jump_consistent` returns 1 (hashkit.c:1008, hashkit.c:1016).

## Model

| member | source | states |
|---|---|---|
| SkipListSpec.InsertAtRank | skip_list.c:85-104 | an insert puts its entry in front of the first entry whose key is not larger, and moves nothing else |
| SkipListSpec.InsertKeepsOrder | skip_list.c:85-104 | descending order survives every insert, also of a key that is there already |
| SkipListSpec.InsertAddsOne | skip_list.c:74-106 | the multiset of entries gains exactly (key, ptr) |
| SkipListSpec.RemoveTakesOne | skip_list.c:107-146 | a remove takes out the first entry of the key and nothing else; an absent key changes nothing |
| SkipListSpec.InsertIsMapUpdate | skip_list.c:74-106 | an insert of a new key is an update of the finite map |
| SkipListSpec.RemoveIsMapRemove | skip_list.c:107-146 | on distinct keys a remove is a removal from the finite map |
| SkipListSpec.RunIsMapRun | skip_list.c:74-146 | any run of inserts of new keys and of removes acts as the same run on the finite map, and keeps the keys descending and distinct |
| SkipListLinks.ChainIsFilter | skip_list.c:85-104 | following the level-i links from any node visits exactly the later nodes of level i or more, in level-0 order, and ends at the tail |
| SkipListLinks.LinkedWith | skip_list.c:100-104 | once x is linked on each of its levels, every link of every node is right for the list with x in it |
| SkipListLinks.TakeLink | skip_list.c:102 | the new node takes over the link of its recorded predecessor, which is the link that it must have |
| SkipListLinks.GiveLink | skip_list.c:103 | the predecessor's link then leads to the new node, and no other link of any node changes its goal |
| SkipListLinks.LinkIn | skip_list.c:100-104 | the two assignments per level turn the well-linked list into the well-linked list with the new node at its rank |
| SkipListUnlink.UnlinkLevel | skip_list.c:136-137 | on a level on which a node was recorded, the found node is taken out of that level, and no other link of any node changes its goal |
| SkipListUnlink.UnlinkAll | skip_list.c:131-139 | on any list, repeated keys included: every level skips the node found on it, every other link leads where it led, and the node to be freed is the one found on the highest level |
| SkipListUnlink.SkippedIsLinked | skip_list.c:131-139 | if the first node of the key is on every level that a node of the key is on, that is the well-linked list without this node |
| SkipListUnlink.SkippedIsNotLinked | skip_list.c:131-139 | and if it is not, that list lacks a link |
| SkipListUnlink.LevelZeroAfter | skip_list.c:131-139 | in any case level 0 is the old order without the first node of the key |
| SkipListUnlink.UnlinkOut | skip_list.c:131-144 | on any list: the loop takes the first node of the key out of level 0, or none if there is none; it keeps the list well linked if and only if that node is as tall as any other of the key; it then frees that node, and otherwise frees a node to which level 0 still leads |
| SkipListUnlink.FreedIffTallest | skip_list.c:107-146 | for a key that may occur repeatedly: the node freed is the first node of the key if and only if no later node of that key is taller |
| SkipListLinks.FreeAll | skip_list.c:170-181 | the destroy loop frees the level-0 nodes in order |
| SkipListLinks.FreedOnce | skip_list.c:170-181 | no node, the sentinels included, is freed twice |
| SkipList.RandomLevel | skip_list.c:13-21 | the level is the number of ones in front of the first zero that `rand() % 2` yields, but at most max_level - 1 |
| SkipList.EveryLevel | skip_list.c:13-21 | any level in 0..max_level-1 can come out |
| SkipList.SkipList.constructor | skip_list.c:50-73 | an empty well-linked list with any key in the tail; of 1 level if fewer than 0 are asked for, of 8 if more than 8, and otherwise of as many as are asked for, which may be none |
| SkipList.SkipList.SearchStopsOnTop | skip_list.c:85-99 | the insert search ends in front of the rank of the key on the top level exactly if the tail's key is not larger than the key or a node on the top level has a key that is not larger |
| SkipList.SkipList.InsertSearch | skip_list.c:85-99 | if so, every level records the last node in front of the rank; if not, every level records the tail, so that the insert would write through the tail's unset links |
| SkipList.SkipList.Insert | skip_list.c:74-106 | in exactly that case, at whatever level: the list stays well linked and descending, and its entries gain exactly (key, ptr), in one new node at its rank, of the level that the flips decide |
| SkipList.SkipList.RemoveSearch | skip_list.c:109-130 | every level records the node in front of the key's node, or nothing where that level has no such node |
| SkipList.SkipList.Remove | skip_list.c:107-146 | on any list: -1, with the list as it was, exactly if the key is absent; otherwise the first entry of the key leaves level 0, and where each link then leads and which node is freed is stated; the list stays well linked if and only if no later node of the key is taller than the first; then it does not lead to the freed node any more, and otherwise it still does |
| SkipList.SkipList.OnceIsTallest | skip_list.c:122-138 | a key that occurs at most once meets that condition, whatever the other keys do |
| SkipList.RemoveCanDangle | skip_list.c:107-146 | a list that create and two inserts of one key can produce, on which remove frees the node that the head leads to |
| SkipList.SkipList.EmptyNeedsTail | skip_list.c:85-99 | on an empty list the search stops in front of the tail exactly if the tail's key is not larger than the key |
| SkipList.InsertCanMissTheEnd | skip_list.c:64-93 | a new list with the key 1 in its tail, on which an insert of the key 0 does not stop in front of it |
| SkipList.SkipList.Find | skip_list.c:147-169 | finds an entry of the key if and only if there is one, whatever the levels of the nodes; of several it finds the one whose node remove would free, and so, if that node is as tall as the others, the first one, which was inserted last |
| SkipList.SkipList.Destroy | skip_list.c:170-184 | frees every node once, in level-0 order, and then the sentinels |
| SkipList.SkipList.Replay | skip_list.c:74-169 | after any run of inserts of new keys and removes, at whatever levels, find agrees with the finite map |
| Md5Spec.HashBlocksAppend | md5.c:51-157 | hashing blocks in two goes is hashing them in one |
| Md5Block.SelectByXor | md5.c:10-11 | the optimised F and G are the functions F and G of section 3.4 of RFC 1321 |
| Md5Block.StepIsOperation | md5.c:18-21 | STEP is the operation of section 3.4 of RFC 1321, addition modulo 2^32 and rotation included |
| Md5Block.Transform | md5.c:65-146 | the 64 unrolled steps are the 64 indexed operations of section 3.4 of RFC 1321, with their word order, shifts and constants, and the final additions |
| Md5.CountsMore | md5.c:177-181 | the split 29/32-bit counter with its carry counts bytes modulo 2^61 |
| Md5.LengthOfCounter | md5.c:227-235 | the eight length bytes are the bit count modulo 2^64, low byte first (section 3.2 of RFC 1321) |
| Md5.Context.Body | md5.c:51-157 | the registers move by exactly the blocks given, one or more |
| Md5.Context.Count | md5.c:177-181 | the counter stays exact for any size |
| Md5.Context.Absorb | md5.c:183-204 | whatever was waiting and whatever comes, whole blocks go into the registers and the leftover waits in the buffer: nothing is lost, repeated or reordered |
| Md5.Context.Update | md5.c:171-205 | the context stands for all bytes so far followed by the new ones |
| Md5.Context.PadOut | md5.c:211-226 | both padding cases yield the byte 0x80 and the number of zeros of section 3.1 of RFC 1321 |
| Md5.Context.Final | md5.c:207-257 | the result is the RFC 1321 digest of everything the context was fed, and the context is wiped |
| Md5Answers.InitialBytes | md5.c:159-169 | the bytes of the four initial words, low-order bytes first, count up and down as section 3.3 of RFC 1321 lists them |
| Md5Answers.LengthDigits | md5.c:227-235 | the eight length bytes are the digits to the base 256 of the bit count modulo 2^64, the lowest first |
| Md5Answers.DigestOfEmpty | md5.c:51-257 | the digest that section A.5 of RFC 1321 lists for the empty message |
| Md5Answers.DigestOfAbc | md5.c:51-257 | and for "abc" |
| Md5.DigestOfPieces | md5.c:159-257 | any way of cutting a message into updates gives the digest of the whole |
| Md5.Signature | md5.c:263-271 | the digest of the key |
| Md5.HashMd5 | md5.c:273-284 | the first four bytes of the digest as a little-endian word |
| CrcSpec.ShiftXor | hashkit.c:603-615 | a shift of the CRC register is linear |
| CrcSpec.UnshiftShift | hashkit.c:603-615 | a shift of the CRC register can be undone |
| CrcSpec.RegisterInjective | hashkit.c:603-615 | the same message bits take different registers to different registers |
| CrcSpec.RegisterIsShifts | hashkit.c:603-615 | up to 32 message bits at once are one exclusive or followed by as many shifts |
| CrcSpec.Crc32DetectsBursts | hashkit.c:603-615 | two keys whose bits differ only within 32 consecutive places never share a CRC |
| CrcSpec.Crc32DetectsFourBytes | hashkit.c:603-615 | in particular when they differ only within four consecutive bytes |
| Crc.Crc32TabIsShifts | hashkit.c:60-317 | every entry of crc32tab is eight shifts of its index, for the polynomial 0xedb88320 |
| Crc.TableStep | hashkit.c:611 | one look-up does the work of eight shifts, on every register |
| Crc.HashCrc32a | hashkit.c:603-615 | the bit-at-a-time CRC-32 of section 8 of RFC 1952, on every key |
| Crc.HashCrc32 | hashkit.c:590-601 | bits 16 to 30 of the same value, although the key is read as signed chars |
| HashAnswers.Crc32OfDigits | hashkit.c:603-615 | the published check value 0xcbf43926 of CRC-32, for "123456789" |
| HashAnswers.Bits16To30Are | hashkit.c:600 | bit by bit, what hash_crc32 returns of it |
| Crc.Crc16TabIsShifts | hashkit.c:319-576 | every entry of crc16tab is eight shifts of its index as a high byte, for the polynomial 0x1021 |
| Crc.TableStep16 | hashkit.c:585 | one look-up does the work of eight shifts of the 16-bit register |
| Crc.WideRound | hashkit.c:585 | what a round of the unmasked loop keeps: the register and above it the high bytes of the two registers before |
| Crc.HashCrc16 | hashkit.c:578-589 | the low 16 bits are the CRC of the key; the high ones are the high bytes of the CRCs of the key without its last and its last two bytes |
| Crc.WideParts | hashkit.c:585 | which bits of the accumulator these are |
| HashAnswers.Crc16OfDigits | hashkit.c:578-589 | the published check value 0x31c3 of this CRC, for "123456789" |
| JenkinsSpec.MixInverse | hashkit.c:15-35 | mix is a permutation of word triples, with an explicit inverse on both sides |
| JenkinsSpec.FinalInverse | hashkit.c:37-53 | so is final |
| JenkinsSpec.AbsorbInjective | hashkit.c:749-757 | the same rest of a key takes different states to different states |
| JenkinsSpec.OneBlockMatters | hashkit.c:749-757 | keys of one length that differ in one 12-byte block only reach different states |
| Jenkins.MixMacro | hashkit.c:15-35 | the macro's assignments make that permutation |
| Jenkins.FinalMacro | hashkit.c:37-53 | and so for final |
| Jenkins.MaskedIsPadded | hashkit.c:759-813 | masking the last word read takes out whatever follows the key in memory |
| Jenkins.LastWords | hashkit.c:759-813 | the last block read in words is the zero-padded block |
| Jenkins.LastHalfWords | hashkit.c:831-874 | so it is when read in half-words |
| Jenkins.LastBytes | hashkit.c:902-933 | and when read byte by byte with fall-through |
| Jenkins.HashJenkins | hashkit.c:731-940 | at whatever address the key lies, and whatever follows it in memory, the value is that of the one byte-string function |
| HashAnswers.JenkinsOfScore | hashkit.c:731-940 | from the initial value 0 it is the hash 0x17770551 that the author of lookup3 lists for "Four score and seven years ago" |
| HashAnswers.JenkinsFrom13 | hashkit.c:55 | the initial value is 13; the hashes of the empty key and of a key of one whole block |
| Murmur.DivideTimes | hashkit.c:942-986 | the multiplier 0x5bd1e995 has the inverse 0xe59b19bd modulo 2^32 |
| Murmur.BlockInjective | hashkit.c:950-963 | a block step loses neither the state nor the block |
| Murmur.FinishInjective | hashkit.c:981-983 | the finalisation is one-to-one |
| Murmur.AbsorbInjective | hashkit.c:950-979 | the same rest of a key takes different states to different states |
| Murmur.NoCollisionInOneBlock | hashkit.c:942-986 | keys of one length that differ in one 4-byte block only, or in the tail only, never collide |
| Murmur.Tail | hashkit.c:965-979 | the fall-through switch absorbs the last one to three bytes as one word |
| Murmur.HashMurmur | hashkit.c:942-986 | the loop computes the hash about which this is proved |
| HashAnswers.MurmurAnswers | hashkit.c:942-986 | the hashes of the empty key and of a key with a block and a tail |
| ByteHashes.RoundInjective | hashkit.c:617-1004 | a round of any of the five hashes loses neither the state nor the byte |
| ByteHashes.OneByteMatters | hashkit.c:617-1004 | keys that differ in exactly one byte never collide, for one-at-a-time and for all four of the FNV family |
| ByteHashes.Low32Rounds | hashkit.c:631-644 | the low half of the 64-bit FNV recurrence runs on its own, by 32-bit steps |
| ByteHashes.HashOneAtATime | hashkit.c:987-1004 | the loop computes the hash of OneByteMatters |
| ByteHashes.HashFnv1With64 | hashkit.c:617-629 | the low half of the 64-bit recurrence |
| ByteHashes.HashFnv1aWith64 | hashkit.c:631-644 | the low half of the 64-bit recurrence, although only 32 bits are kept |
| ByteHashes.HashFnv1With32 | hashkit.c:646-659 | the loop computes the hash of OneByteMatters |
| ByteHashes.HashFnv1aWith32 | hashkit.c:661-674 | the loop computes the hash of OneByteMatters |
| HashAnswers.SignExtends | hashkit.c:625 | a char from 0x80 on counts as 0x100 less, in 32 and in 64 bits |
| HashAnswers.Fnv1With64OfFoobar | hashkit.c:617-629 | the published FNV-1 hash of "foobar", its low half |
| HashAnswers.Fnv1aWith64OfFoobar | hashkit.c:631-644 | the published 64-bit FNV-1a hash of "foobar", its low half |
| HashAnswers.Fnv1With32OfFoobar | hashkit.c:646-659 | the published 32-bit FNV-1 hash of "foobar" |
| HashAnswers.Fnv1aWith32OfFoobar | hashkit.c:661-674 | the published 32-bit FNV-1a hash of "foobar" |
| HashAnswers.OneAtATimeOfA | hashkit.c:987-1004 | the published hash 0xca2e9442 of "a" |
| JumpHash.ExactLeap | hashkit.c:1014 | a jump without rounding leads at least one bucket on, and stays below 2^62 from any 31-bit bucket |
| JumpHash.LeapIsQuotient | hashkit.c:1014 | the jump without rounding leads from b to n or beyond exactly if n times the draw is at most (b + 1) * 2^31 |
| JumpHash.DrawsBeyondCount | hashkit.c:1014 | so for n > b exactly (b + 1) * 2^31 / n of the 2^31 draws lead there, which is what spreads the keys evenly |
| JumpHash.ExactIsNear | hashkit.c:1014 | it is one of the jumps that are the quotient up to one part in 2^51 and the fraction cut off, as the computed ones are |
| JumpHash.OneStepIsNotNear | hashkit.c:1014 | a jump that is one step on the first draw is not |
| JumpHash.BucketIsUnique | hashkit.c:1005-1018 | a key has at most one bucket |
| JumpHash.MinimalMovement | hashkit.c:1005-1018 | with more buckets a key stays or goes to a new bucket |
| JumpHash.BucketExists | hashkit.c:1010-1015 | the walk of a key leaves the n buckets after finitely many jumps, so that every key has a bucket |
| JumpHash.GrowingMovesToNewBuckets | hashkit.c:1005-1018 | for 1 <= n <= m, if the bucket among m is below n it is the bucket among n: growing moves keys to new buckets only |
| JumpHash.OneMoreBucket | hashkit.c:1005-1018 | one more bucket takes keys only to itself |
| JumpHash.VisitsFit | hashkit.c:1012-1014 | for any 32-bit bucket count no number computed by such a jump reaches 2^62 |
| JumpHash.HashJumpConsistent | hashkit.c:1005-1018 | the loop ends, in 0..n-1, at the key's bucket; for n of 0 or less it gives 1 |
| JumpHash.KnownBucket | hashkit.c:1005-1018 | the key 10863919174838991 is in bucket 6 of 11, by the steps 1, 6, 14 |
| JumpHash.FirstBucket | hashkit.c:1005-1018 | the key 0 stays in bucket 0 of 10 |
| Validator.RunItems | conf.c:778-876 | inside the sequence of a pool anything but a scalar is rejected |
| Validator.RunPoolPairs | conf.c:778-876 | the settings of a pool are accepted exactly if keys are scalars and values scalars or the one flat sequence, whichever value the pool before left in count[2] |
| Validator.DecidesGrammar | conf.c:722-884 | on the events of any document the validator accepts exactly the grammar, and never indexes outside count[0..2] or trips an assertion |
| Validator.HandleEvent | conf.c:778-876 | the switch makes the machine's step on depth, counters, flag and error |
| Validator.ValidateStructure | conf.c:722-884 | 0 if the document conforms and -1 if it does not |
| Text.StrAtoi | util.c:188-213 | the number that the digits denote, or -1 for anything else; no step leaves the range of an int if the value fits; it is -1 exactly for the empty string and for one with another character |
| Text.ReadsBack | util.c:188-213 | the decimal digits of any number denote that number |
| Text.CompareZero | cstring.c:66-74 | comparing equal is being equal, if one side has no NUL in it |
| Text.NulHides | cstring.c:66-74 | and otherwise it need not be |
| Text.CompareTransitive | cstring.c:66-74 | the order is transitive, and nothing different lies between strings that compare equal |
| Text.ShorterFirst | cstring.c:68-71 | a shorter string comes first, whatever is in it |
| Text.FirstDifferenceDecides | cstring.c:73 | of two of one length the first difference decides, if no NUL is in front of it |
| Text.CompareIsOrder | cstring.c:66-74 | without NUL in both, one compares less exactly if it is shorter, or as long with the smaller character at the first difference |
| ArrayStack.GrowArray.Push | array.c:84-109 | a slot on top; doubling the capacity keeps the contents, and below capacity nothing moves |
| ArrayStack.GrowArray.Pop | array.c:111-122 | gives back the top and leaves the rest |
| ArrayStack.PushWritePop | array.c:84-122 | push, write and pop leave the stack as it was, also across a reallocation |
| ParserSpec.ParsesTheTree | conf.c:341-458 | on every two-level document the event machine builds exactly the pools of the direct reading of the tree or fails for the same reason, the reason of having no defined meaning included; it ends with an empty stack at depth 0, and in every state on the way the stack holds what depth, flag and pending key say, never more than 3 scalars |
| ParserSpec.BodyEnds | conf.c:341-458 | the recursion meets its end exactly at the end of the root mapping or at a reported error |
| ParserSpec.ConformingIsTwoLevel | conf.c:722-884 | whatever the validator accepts, the parser can be run on |
| Settings.FoldSucceedsIffClean | conf.c:213-251 | reading settings succeeds if and only if no scalar is empty or has a NUL in it, every number is a number and no known key is given a second value |
| Settings.FoldAssigns | conf.c:213-251 | and then every known key holds its value and every other field is as before |
| Settings.CommandTable | conf.c:9-20 | the known keys are the seven of the command table, five of them for numbers |
| Settings.FieldsBecome | conf.c:9-20 | said of the fields themselves: addr, port, timeout, workers, backlog, datadir and max_slots each hold the value given to the key of that name, or what they held before if there is none |
| Settings.FoldRootSucceedsIff | conf.c:341-458 | a document is read if and only if each of its pools is |
| Settings.FoldRootReads | conf.c:341-458 | and then there is one pool for each root key, in order, named by that key, with every field set by that key's mapping, or to what conf_pool_init leaves there |
| Settings.FreshPoolIsFree | conf.c:21-42 | a new pool has every field unset, except max_slots, which counts as unset only if its memory happened to hold -1 |
| Parser.Conf.PushScalar | conf.c:171-202 | pushes a scalar that is not empty and has no NUL in it; an empty one is an error and changes nothing |
| Parser.Conf.PopScalar | conf.c:204-211 | drops the top scalar |
| Parser.Conf.SetCommand | conf.c:1093-1143 | sets the field, or fails without a change for a second value or for what is no number |
| Parser.Conf.Handler | conf.c:213-251 | names a new pool, or applies the setting on top of the stack to the current one; unknown keys are ignored |
| Parser.Conf.LeafAction | conf.c:439-456 | whatever the handler says, the value leaves the stack, and outside a sequence the key as well |
| Parser.Conf.HandleEvent | conf.c:361-456 | one event moves the object as one step moves the machine |
| Parser.Conf.ParseCore | conf.c:341-458 | the recursion carries the object to the result of the machine |
| Parser.Conf.BeginParse | conf.c:253-299 | reads up to the opening of the root mapping |
| Parser.Conf.EndParse | conf.c:301-339 | reads to the end of the stream |
| Parser.Conf.Parse | conf.c:460-488 | succeeds exactly if the direct reading of the tree does, with its pools, an empty stack, depth 0 and all events read; every field of every pool then holds what the mapping gives it, or what conf_pool_init leaves there |
| PostValidate.DistinctPermuted | conf.c:981-1003 | any two arrangements of the pools have the same duplicates |
| PostValidate.BothAreOrders | conf.c:917-929 | the two comparisons are total and transitive, as qsort requires |
| PostValidate.SortedSorts | conf.c:981-1003 | so that any pools can be put in order by them |
| PostValidate.NamesDecided | conf.c:1002-1018 | in any outcome of the sort, no two neighbours with the same name means no two pools with it |
| PostValidate.DistinctNamesAreUnequal | conf.c:917-922 | without NUL in them, names are the same exactly if they are equal |
| PostValidate.SortedByName | conf.c:1002-1003 | and pools of different names end in strict order: shorter names first, and names of one length by the first character that differs |
| PostValidate.SameListenIsEqual | conf.c:989 | without NUL in the addresses, two pools share address and port exactly if both are equal |
| PostValidate.DistinctPasses | conf.c:980-996 | pools without a shared address and port pass in every outcome of the sort |
| PostValidate.PassesIffSpread | conf.c:980-996 | some outcome of the sort passes if and only if no port is taken by more than half, rounded up, of the pools of its address |
| PostValidate.RightIff | conf.c:924-929 | the check on address and port is right about these pools in every outcome if and only if they have no duplicate or a port is that frequent: the sort ignores the port |
| PostValidate.RightForPairs | conf.c:980-996 | with at most two pools at any address it is right |
| PostValidate.DuplicateCanPass | conf.c:980-996 | with three it can be wrong: ports 1, 2, 1 at one address pass |
| PostValidate.ValidatePool | conf.c:931-950 | fills in the defaults, and only those |
| PostValidate.PostValidate | conf.c:952-1026 | succeeds exactly if there are pools, no two share a name, and no two neighbours in the first sort share address and port; the pools are then all there, with defaults, in order of names |
| ConfCreate.PoolNames | conf.c:402-411 | every pool is named by its root key, which is not empty, as conf_validate_pool asserts, and has no NUL in it |
| ConfCreate.NamesAreKeys | conf.c:1002-1018 | so the check on names is a check on the root keys of the document |
| ConfCreate.DefaultsConfigure | conf.c:931-950 | once the defaults are filled in, a pool's port is the one given or 5432, its backlog the one given or 512, its timeout and workers those given or -1, and its other fields those given or what conf_pool_init leaves there |
| ConfCreate.Create | conf.c:1028-1072 | validator, parser and later checks together accept a document if and only if it has the structure, each pool can be read, there is one, the root keys differ and no neighbouring pools share address and port; the configuration then holds exactly one pool for each root key, with the fields that its mapping and the defaults give it, the shorter names first and those of one length by the first character that differs |
| ConfCreate.OrdersExist | conf.c:981-1003 | there are sorts of the kind that Create is given |

## Left out

- SkipList.SkipList.Insert: requires that the search stops short of the tail; otherwise the program writes through the tail's unset links, which has no meaning to model. `InsertSearch` states both cases of the search itself.
- SkipList.SkipList.Replay: asks that the tail's key is not larger than any inserted key, so that every insert is safe whatever the levels; an insert that is safe only because of a node on the top level is covered by `Insert`.
- SkipList.SkipList.Destroy: freeing is modelled by the sequence of nodes handed to it; `max_level` must be at least 1, since the program reads `head->next[0]`. The program also frees `next` of the tail (skip_list.c:45, skip_list.c:181), which create never sets (skip_list.c:64); the model's tail has no links, and what that call of `free` does is not modelled.
- SkipList.RandomLevel: what `rand()` yields is any sequence; nothing is said about probabilities or expected running time.
- Md5.Context.Body: the variant of SET and GET for other machines, which copies words into `block`, is not modelled; words are read in little-endian order as in md5.c:31-35.
- Md5Spec.Sine: the 64 constants are the numbers of the program and of RFC 1321, not computed from sines.
- JumpHash.HashJumpConsistent: the division in doubles is any function that leads at least one bucket on.
- JumpHash.VisitsFit: that two roundings of doubles stay within one part in 2^51 is taken from the format and not derived.
- Jenkins.HashJenkins: little-endian reads only; the memory that the word path reads beyond the key must exist, as the program assumes.
- Crc.HashCrc16: the tables are functions of the index instead of arrays.
- Text.StrAtoi: requires that the leading digits denote an int; beyond that the program's arithmetic overflows a signed int, which has no defined meaning. The parser carries the same condition as the reason Undefined.
- Parser.Conf.Parse: requires a two-level document in which neither a number that does not fit nor a scalar with a NUL in it is reached; nothing is defined beyond. A mapping nested deeper is not covered: the validator has refused it, unless it was told not to look.
- Parser.Conf.Handler: keys are compared with the command names by equality, which `CompareZero` justifies since no command name holds a NUL.
- PostValidate.PostValidate: qsort is not modelled; its outcome is a parameter that must be an ordered arrangement of the same pools.
- Parser.Conf.PushScalar: requires a scalar without NUL; for any other the copy has no defined meaning.
- ConfCreate.Create: requires the same of the document as `Parse`. The case of a single-level file, which skips the structure check, and the checks on the document and its tokens before it are not modelled.
- The arrays `update` of insert and remove, and the key arguments of the hash functions, are sequences; they are local or only read.
- Allocation failure, and the error paths that only it can reach.
- The YAML scanner: the model starts from the events of a tree.
- `hash_hsieh`, `conf_set_bool`, `conf_set_hash`, `conf_set_service_type`: nothing harder than what is here.
- `conf_destroy`, `conf_dump`, `skip_list_print`, logging: memory release and output.
- Sockets, the web server, the client and the storage files.
