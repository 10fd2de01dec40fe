# Paid, legible agent execution: a verified model

This project models the tamper-evident core of the repository in Dafny and proves
what its documentation and tests promise, for all inputs and all runs:

- the Merkle Mountain Range of `iedb-crypto` (leaf vector, cached peaks, inclusion
  proofs, verification);
- the JSON canonicalization of `iedb-crypto` (RFC 8785, sections 3.2.2.2 and 3.2.3,
  integers only) and the message that is signed;
- the paid-execution pipeline of `hammurabi-handoff`: the payment gate, the
  credential vault, the settlement envelope with its second verifier, the HTTP
  handlers, and the bounded feed.

`dafny verify dfyconfig.toml` checks the whole project.

## How it is organised

| files | content |
|---|---|
| `Bytes`, `Wrappers`, `Hex`, `Unicode` | bytes, digests, 64-bit integers, hexadecimal, UTF-8 and UTF-16 |
| `Mountains`, `MountainLaws`, `MountainLoops`, `MerkleBinding`, `MerkleRoots`, `MerkleForest` | the range as functions over any pairing function, its laws, the source's loops proved against it, exactly which proofs are accepted and which ranges share a root, and the class |
| `Json`, `JsonText`, `JsonReader`, `JsonShortest`, `Jcs`, `JcsWriter` | JSON values, printer and reader, why the text is the shortest, the canonical form, and the writer that pushes onto a buffer |
| `Crypto`, `Intent`, `Vault`, `Settlement`, `X402`, `Mesh` | uninterpreted primitives and each component of the pipeline with its own laws |
| `MintProbes` | what the probes of the mint alter, refuse and report |
| `Protocol`, `ProtocolLaws`, `ProtocolHistory` | the pipeline as a transition system with any number of settlements and requests in flight, its laws, and what each state tells of the run behind it |
| `Server`, `ServerLaws` | the handlers as methods, and their refinement of the transition system |
| `FeedAudit`, `FeedRuns` | the feed lines the steps cause, and their posting as steps of its own |

State that the source updates in place is a class whose methods are proved against
functions of the old state: `MerkleForest`, `TextBuffer`, `X402Gate`, `MeshBus`,
`HandoffState`. The laws are proved about those functions.

## Assumptions

- The hash is any function from bytes to 32-byte digests. Nothing assumes it is
  injective: binding results compute two inputs, from the checks at hand, that collide.
- Signing, verification and key derivation are any functions. Only
  `Crypto.SignedThenReordered` assumes that honest signatures verify; the mint needs no
  such assumption, because its first probe sees the signature verify.
- Receipt ids and credential ids are fresh (`Protocol.Enabled`).
- Clocks and randomness are parameters. No clock is assumed to be monotonic.
- `i64` addition wraps around, as the release profile computes it
  (`Bytes.WrapAdd`); a debug build would stop instead. Credentials minted in the last
  minute of `i64` therefore never verify.

## Where code and documentation disagree

The model follows the code.

- "If it isn't in the feed, it didn't happen" (`desktop/hammurabi-handoff/src/mesh.rs:6-7`):
  a paid call whose body does not parse, or names another intent, consumes its receipt
  without a feed line. `ServerLaws.SilentExactly` gives the exact condition. Lines are also
  posted after their step, and the feed forgets beyond 2000: `FeedRuns.PaymentsBalance` says
  what counting all posted lines still tells, and `FeedRuns.FeedShowsAllExactly` when the
  retained feed is enough.
- A lowest `seq` other than zero as the sign of a gap (`desktop/hammurabi-handoff/src/mesh.rs:29-32`):
  the first line pushed can overtake number 0. `Mesh.GapTestExactly` gives the exact condition,
  `Mesh.GapTestFails` the smallest run. Even with posts one at a time the sign fails when the
  counter has come round to zero: `Mesh.ReaderTestExactly`.
- `seq` as the "total order of the feed" (`desktop/hammurabi-handoff/src/mesh.rs:59`):
  the counter and the log are updated apart, so overlapping posts can be logged out of
  number order (`Mesh.OvertakingHappens`). `Mesh.FeedInOrderExactly` gives the exact
  condition for the retained feed.
- `verify` and `verify_with_root` do not compare the length of a path with the height of
  the mountain, and `verify_compact` does not read the root it is given. Binding holds
  for paths of one length (`MerkleBinding.OpeningCollision`); what is accepted at each other
  length is `MerkleBinding.ShortPathExactly` and `MerkleBinding.LongPathExactly`.
- A root does not carry the leaf count. `MerkleRoots.RootsEqualExactly` says which ranges
  share a root, and `MerkleRoots.CountsShareRootsExactly` for which counts that can happen
  under every hash.
- The tampering probe of the vault leaves a payload unchanged when it already has the
  probe's own member: such a payload can never be minted
  (`Vault.TamperingChangesMessage`, `Vault.MarkedPayloadIsNeverMinted`). No intent has it
  (`Settlement.IntentsAreMinted`).
- The two verifiers accept together but can name different reasons for the same
  refusal (`Settlement.ReasonsAgreeExactly`).

## Model

| member | source | states |
|---|---|---|
| `MerkleForests.MerkleForest.constructor` | core/iedb-crypto/src/merkle/mod.rs:43-49 | an empty forest is valid: its cached peaks are those of its leaves |
| `MerkleForests.MerkleForest.Append` | core/iedb-crypto/src/merkle/mod.rs:51-55 | the leaf goes last; the new peaks are the old ones with the k rightmost folded into the leaf, k the number of trailing one bits of the old count; every other peak is untouched |
| `MerkleForests.MerkleForest.AppendData` | core/iedb-crypto/src/merkle/mod.rs:57-61 | appends the digest of the data and returns it |
| `MerkleForests.MerkleForest.RecomputePeaks` | core/iedb-crypto/src/merkle/mod.rs:232-246 | whatever the cache held, it becomes the peaks of the greedy split of the leaves |
| `MerkleForests.MerkleForest.Root` | core/iedb-crypto/src/merkle/mod.rs:63-72 | for a forest with leaves the hash of bytes whose 32-byte blocks are the peaks, the first peak first; 32 zero bytes for the empty forest |
| `MerkleForests.MerkleForest.GetLeaf` | core/iedb-crypto/src/merkle/mod.rs:87-92 | the leaf, or the out-of-bounds error exactly past the end |
| `MerkleForests.MerkleForest.FindPeakForLeaf` | core/iedb-crypto/src/merkle/mod.rs:94-114 | the place of the leaf in the split, or the out-of-bounds error exactly past the end; the error behind the loop is dead |
| `MerkleForests.MerkleForest.Proof` | core/iedb-crypto/src/merkle/mod.rs:116-150 | the siblings of the leaf in its own mountain, lowest first; the out-of-bounds error exactly past the end |
| `MerkleForests.MerkleForest.Verify` | core/iedb-crypto/src/merkle/mod.rs:152-178 | accepts exactly the openings the specification accepts against the forest's own root |
| `MerkleForests.MerkleForest.VerifyWithRoot` | core/iedb-crypto/src/merkle/mod.rs:180-217 | accepts exactly the openings that give the expected root; both errors with their contents, each exactly where it occurs |
| `MerkleForests.MerkleForest.MakeCompactProof` | core/iedb-crypto/src/merkle/mod.rs:219-226 | leaf, generated proof, current root and index together, or the out-of-bounds error |
| `MerkleForests.MerkleForest.VerifyCompact` | core/iedb-crypto/src/merkle/mod.rs:228-230 | the proof is checked against the forest's own root: the root inside the compact proof plays no part |
| `MerkleForests.ProveAndCheck` | core/iedb-crypto/src/merkle/mod.rs:219-230 | the methods together: a forest accepts every compact proof it makes, and so does a check against the root it carries; past the end both report the index |
| `MerkleBinding.FlattenExactly` | core/iedb-crypto/src/merkle/mod.rs:67-70 | the bytes fed to the hasher are the one text whose i-th block of 32 is the i-th digest |
| `MerkleBinding.RootExactly` | core/iedb-crypto/src/merkle/mod.rs:63-72 | a digest is the root exactly when it is the hash of the peaks in that order, or all zeros without any |
| `MerkleBinding.SmallRoots` | core/iedb-crypto/src/merkle/mod.rs:63-72 | the roots over one to four leaves, hash by hash: left before right, the larger mountain first |
| `MerkleBinding.SmallProofs` | core/iedb-crypto/src/merkle/mod.rs:116-150 | the proofs over four leaves, digest by digest: the neighbour, then the node across; none for a mountain of one |
| `MountainLoops.LargestFit` | core/iedb-crypto/src/merkle/mod.rs:239-242 | the doubling loop stops at the largest power of two that fits |
| `MountainLoops.FindMountain` | core/iedb-crypto/src/merkle/mod.rs:99-112 | the walk over the mountains finds the place of the leaf |
| `MountainLoops.PairChunks` | core/iedb-crypto/src/merkle/mod.rs:126-133 | one round of chunks of two: pairs hashed, an odd last node moved up |
| `MountainLoops.BuildTree` | core/iedb-crypto/src/merkle/mod.rs:248-265 | the rounds over a power-of-two block give the recursive tree of its halves |
| `MountainLoops.ComputePeaks` | core/iedb-crypto/src/merkle/mod.rs:232-246 | the greedy loop gives one tree root for each mountain, left to right |
| `MountainLoops.BuildLevels` | core/iedb-crypto/src/merkle/mod.rs:120-136 | the kept levels are the leaves and every round above them |
| `MountainLoops.ClimbLevels` | core/iedb-crypto/src/merkle/mod.rs:138-149 | picking by index parity gives the sibling list of the slot |
| `MountainLoops.FoldPath` | core/iedb-crypto/src/merkle/mod.rs:158-167 | the climb by index parity is the fold of the path |
| `MountainLoops.LevelStep` | core/iedb-crypto/src/merkle/mod.rs:125-133 | on a level of a perfect tree the odd-chunk branch is never taken, the level halves and the root above stays |
| `MountainLoops.BlockIsSlice` | core/iedb-crypto/src/merkle/mod.rs:118-123 | index minus slot and the mountain size delimit the leaf's own mountain |
| `MountainLaws.TreeByLevel` | core/iedb-crypto/src/merkle/mod.rs:248-265 | hashing level by level equals hashing the left half paired with the right half |
| `MountainLaws.SizesAreBinaryDigits` | core/iedb-crypto/src/merkle/mod.rs:232-246 | the mountain sizes are strictly decreasing powers of two that sum to the leaf count |
| `MountainLaws.SizesUnique` | core/iedb-crypto/src/merkle/mod.rs:232-246 | no other such list sums to the leaf count |
| `MountainLaws.PlaceInSizes` | core/iedb-crypto/src/merkle/mod.rs:94-114 | the peak index is within the peaks, the reported size is that peak's, and the height is at most log2 of the count |
| `MountainLaws.PlaceStart` | core/iedb-crypto/src/merkle/mod.rs:94-114 | index minus slot is the sum of the sizes before the reported mountain |
| `MountainLaws.PlaceIsUnique` | core/iedb-crypto/src/merkle/mod.rs:94-114 | the reported mountain is the one and only one that covers the index |
| `MountainLaws.StartIsMultiple` | core/iedb-crypto/src/merkle/mod.rs:116-118 | every mountain starts at a multiple of its own size |
| `MountainLaws.PeakCount` | core/iedb-crypto/src/merkle/mod.rs:232-246 | one peak for each mountain of the split |
| `MountainLaws.PeaksAgree` | core/iedb-crypto/src/merkle/mod.rs:232-265 | the greedy, mountain-by-mountain peaks are the unpaired nodes of one level-by-level pass over all leaves |
| `MountainLaws.ProofAgrees` | core/iedb-crypto/src/merkle/mod.rs:116-150 | the proof built inside one mountain is the climb over the whole range that stops at a node without a partner |
| `MountainLaws.FoldRebuilds` | core/iedb-crypto/src/merkle/mod.rs:138-167 | folding any leaf of a mountain with its siblings gives the mountain's root |
| `MountainLaws.ProofReachesPeak` | core/iedb-crypto/src/merkle/mod.rs:116-167 | a generated proof has the mountain's height as its length and folds to exactly the peak its place names |
| `MountainLaws.ProofPersists` | core/iedb-crypto/src/merkle/mod.rs:116-150 | whatever is appended later, the old proof of a leaf is a prefix of the new one |
| `MountainLaws.AppendIsCarry` | core/iedb-crypto/src/merkle/mod.rs:51-55 | recomputing all peaks after an append is a binary carry of the trailing mountains |
| `MountainLaws.SizesCarry` | core/iedb-crypto/src/merkle/mod.rs:51-55 | the same carry in sizes: with k trailing one bits the last k mountains are 2^(k-1), .., 2, 1, and one of size 2^k replaces them all |
| `MerkleBinding.InclusionComplete` | core/iedb-crypto/src/merkle/mod.rs:116-217 | for every leaf count and index the generated proof is accepted against the root, and is no longer than log2 of the count |
| `MerkleBinding.FoldCollision` | core/iedb-crypto/src/merkle/mod.rs:158-167 | two different leaf-and-path pairs of one length that fold to one digest give two colliding hash inputs, one from each climb |
| `MerkleBinding.RootsOfPeaks` | core/iedb-crypto/src/merkle/mod.rs:63-72 | equal roots of equally many peaks: equal peaks, or their concatenations collide |
| `MerkleBinding.OpeningCollision` | core/iedb-crypto/src/merkle/mod.rs:180-217 | two different openings of one index, equally long and accepted against one root, give a collision among the inputs the two checks hash |
| `MerkleBinding.ForgeryCollision` | core/iedb-crypto/src/merkle/mod.rs:180-217 | an accepted proof of the generated length for another leaf, or another path, gives a collision with the honest check |
| `MerkleBinding.ShortPathExactly` | core/iedb-crypto/src/merkle/mod.rs:152-217 | the check does not compare lengths: a path no longer than the mountain is high is accepted exactly for the node that many levels below the peak with its own siblings, or when the two hash inputs in which the openings part collide |
| `MerkleBinding.FullNodeOpening` | core/iedb-crypto/src/merkle/mod.rs:116-150 | at full length that node is the leaf and the siblings are the generated proof |
| `MerkleBinding.LongPathExactly` | core/iedb-crypto/src/merkle/mod.rs:152-217 | a longer path is accepted exactly when its surplus steps fold to a leaf of the mountain, itself the hash of a pair, and the rest is that leaf's proof, or on such a collision |
| `MerkleRoots.TreeCollision` | core/iedb-crypto/src/merkle/mod.rs:248-265 | two different blocks with one tree root give a collision among the inputs hashed while building the trees |
| `MerkleRoots.RootsEqualExactly` | core/iedb-crypto/src/merkle/mod.rs:63-72 | two ranges of whatever counts have one root exactly when, mountain by mountain, the lower one's leaves are the taller one's nodes at that height, or the hash inputs in which the two computations part collide; an empty range shares its all-zero root exactly with a range whose peaks hash to zero |
| `MerkleRoots.RootCollision` | core/iedb-crypto/src/merkle/mod.rs:63-72 | so for one leaf count a root fixes every leaf, or there is a collision among the inputs the two roots hash |
| `MerkleRoots.EvenLevelKeepsRoot` | core/iedb-crypto/src/merkle/mod.rs:63-72 | hashing any even number of leaves pairwise gives a range with the same root |
| `MerkleRoots.DifferentMountainCounts` | core/iedb-crypto/src/merkle/mod.rs:63-72 | ranges with different numbers of mountains have one root exactly when their concatenated peaks collide, or hash to zero beside an empty range |
| `MerkleRoots.CountsShareRootsExactly` | core/iedb-crypto/src/merkle/mod.rs:63-72 | two counts can share a root under every hash exactly when they have equally many mountains |
| `Unicode.Utf16TotalOrder` | core/iedb-crypto/src/jcs.rs:122-127 | the key order is a total order, equal only on equal strings |
| `Unicode.Utf16LessExactly` | core/iedb-crypto/src/jcs.rs:122-127 | one key comes before another exactly when, where their UTF-16 code units first part, it has ended or has the smaller unit |
| `Unicode.CharUnitsForm` | core/iedb-crypto/src/jcs.rs:122-127 | the units of a character: itself, or the lead and trail surrogate that stand for it |
| `Unicode.OrdersDiffer` | core/iedb-crypto/src/jcs.rs:122-127 | it differs from code-point order exactly when the first differing characters are one above U+FFFF and one in U+E000..U+FFFF; the comment names only the first half |
| `Unicode.Utf8Injective` | core/iedb-crypto/src/jcs.rs:36-40 | different texts have different UTF-8 bytes |
| `Unicode.ScalarOfBytes` | core/iedb-crypto/src/jcs.rs:36-40 | each character is read back from the bytes written for it |
| `Unicode.CharBytesForm` | core/iedb-crypto/src/jcs.rs:36-40 | how many bytes each range of characters takes, and the ranges of its lead and continuation bytes (section 4 of RFC 3629) |
| `Unicode.Utf8Back` | core/iedb-crypto/src/jcs.rs:36-40 | the bytes of a text, decoded one character after the other, are its characters in order |
| `JsonText.ReadCharBack` | core/iedb-crypto/src/jcs.rs:101-117 | an ordinary JSON reader takes each escape back to its character |
| `JsonText.EscapeTable` | core/iedb-crypto/src/jcs.rs:101-117 | the seven short escapes; any other control character as \u00 and two lower-case digits; every other character itself |
| `JsonText.ReadNumberBack` | core/iedb-crypto/src/jcs.rs:82-96 | every `u64` and negative `i64` is read back from its text, exactly |
| `JsonReader.ReadBack` | core/iedb-crypto/src/jcs.rs:42-79 | a reader that accepts whitespace and every escape reads any printed value back and stops exactly at its end, in any context |
| `JsonReader.ReadRender` | core/iedb-crypto/src/jcs.rs:36-40 | a whole printed text reads back as the value, member order included |
| `JsonReader.ReadSpaced` | core/iedb-crypto/src/jcs.rs:36-40 | the same reader takes spaces, tabs and line ends around the document |
| `JsonReader.RenderPrintable` | core/iedb-crypto/src/jcs.rs:42-120 | the text of any value holds no character below U+0020 |
| `JsonShortest.NumberTextIsUnique` | core/iedb-crypto/src/jcs.rs:82-96 | a number is read from the printed text and from no other |
| `JsonShortest.ValueShortest` | core/iedb-crypto/src/jcs.rs:42-120 | however a value was written, its printed text is no longer: no whitespace, no avoidable escape, no superfluous digit |
| `JsonShortest.RenderIsShortest` | core/iedb-crypto/src/jcs.rs:98-120 | of all texts read as a value the printed one is among them and none is shorter |
| `Jcs.SortAscending` | core/iedb-crypto/src/jcs.rs:61-62 | sorting distinct keys gives a strictly ascending list |
| `Jcs.AnySortAgrees` | core/iedb-crypto/src/jcs.rs:61-62 | any ascending arrangement of distinct keys is that list: the sorting algorithm does not matter |
| `Jcs.SameNormal` | core/iedb-crypto/src/jcs.rs:59-76 | reordering members at any depth never changes the canonical form |
| `Jcs.NormalSame` | core/iedb-crypto/src/jcs.rs:59-76 | one canonical form, one JSON value |
| `Jcs.NormalFloatFree` | core/iedb-crypto/src/jcs.rs:82-96 | sorting members neither hides nor adds a float |
| `Jcs.NormalWellFormed` | core/iedb-crypto/src/jcs.rs:61-74 | distinct keys stay distinct at every depth |
| `Jcs.Canonicalize` | core/iedb-crypto/src/jcs.rs:36-40 | a value is accepted exactly when it holds no float at any depth |
| `Jcs.CanonicalReadsBack` | core/iedb-crypto/src/jcs.rs:36-79 | a JSON reader applied to the canonical text gives the same JSON value, well formed and in canonical order |
| `Jcs.CanonicalBytesDecode` | core/iedb-crypto/src/jcs.rs:36-40 | the canonical bytes decode to the canonical text, character by character, with nothing before or behind it |
| `Jcs.TwoMembersText` | core/iedb-crypto/src/jcs.rs:59-76 | an object of two one-letter keys prints the smaller key first, whatever order it was given in, each with its value and no space |
| `Jcs.KnownObject` | core/iedb-crypto/src/jcs.rs:59-76 | {"b":null,"a":null} prints as {"a":null,"b":null} |
| `Jcs.KnownList` | core/iedb-crypto/src/jcs.rs:49-58 | a list of a negative number and a string that needs both kinds of escape, letter by letter |
| `Jcs.ReparsedCanonicalizesAlike` | core/iedb-crypto/src/jcs.rs:3-8 | re-parsing and re-emitting in transit changes nothing: what is read back canonicalizes to the same bytes |
| `Jcs.CanonicalBytesDecide` | core/iedb-crypto/src/jcs.rs:36-120 | two values have the same canonical bytes exactly when they are the same JSON value |
| `Jcs.CanonicalHasNoControlByte` | core/iedb-crypto/src/jcs.rs:129-134 | canonical bytes are all at least 0x20 |
| `Jcs.FrameInjective` | core/iedb-crypto/src/jcs.rs:136-143 | the framing decides both its parts |
| `Jcs.MessageDecides` | core/iedb-crypto/src/jcs.rs:136-143 | two signed messages are equal exactly when value and timestamp are |
| `Jcs.SeparatorIsFirstZero` | core/iedb-crypto/src/jcs.rs:129-143 | the separator is the first zero byte of the message |
| `Jcs.MessageParts` | core/iedb-crypto/src/jcs.rs:136-143 | a message is the canonical bytes, a zero, and eight bytes: byte j counts the 256^j of the timestamp modulo 2^64, and they read back as the timestamp |
| `Bytes.I64BytesBack` | core/iedb-crypto/src/jcs.rs:141 | the eight timestamp bytes read back as the timestamp |
| `Bytes.I64BytesAt` | core/iedb-crypto/src/jcs.rs:141 | byte j counts the 256^j of the two's complement |
| `Bytes.WrapAddIsModular` | desktop/hammurabi-handoff/src/vault.rs:173 | the sum modulo 2^64, and the sum itself where it fits |
| `JcsWriter.WriteString` | core/iedb-crypto/src/jcs.rs:99-120 | appends exactly the quoted text to the shared buffer |
| `JcsWriter.WriteNumber` | core/iedb-crypto/src/jcs.rs:82-96 | appends the integer's text, or refuses a float and leaves the buffer alone |
| `JcsWriter.WriteValue` | core/iedb-crypto/src/jcs.rs:42-79 | appends exactly the canonical text, or refuses exactly the values with a float; never takes text back |
| `JcsWriter.WriteItems` | core/iedb-crypto/src/jcs.rs:49-58 | the array loop with its early exit |
| `JcsWriter.WriteMember` | core/iedb-crypto/src/jcs.rs:64-74 | one turn of the member loop: separator, key, colon, value |
| `JcsWriter.WriteMembers` | core/iedb-crypto/src/jcs.rs:59-76 | keys sorted, then written in that order |
| `JcsWriter.WriteInOrder` | core/iedb-crypto/src/jcs.rs:63-75 | the member loop with its early exit |
| `JcsWriter.CanonicalizeValue` | core/iedb-crypto/src/jcs.rs:36-40 | the writer on a fresh buffer computes the canonical bytes |
| `JcsWriter.BuildMessage` | core/iedb-crypto/src/jcs.rs:138-143 | bytes, zero and timestamp pushed in turn make the framed message |
| `Crypto.SignedThenReordered` | core/iedb-crypto/src/jcs.rs:145-163 | a payload signs exactly when it has no float; its signature verifies over every member order, and no float payload ever verifies |
| `Crypto.VerifiesExactly` | core/iedb-crypto/src/jcs.rs:153-163 | the canonicalization error exactly for a payload with a float; otherwise accepted exactly when the framed message verifies, and the signature error if not |
| `Hex.DecodeEncode` | desktop/hammurabi-handoff/src/vault.rs:213-218 | hexadecimal text of any bytes decodes to them |
| `Hex.EncodeAt` | desktop/hammurabi-handoff/src/vault.rs:168-171 | byte i becomes the two digits of its halves, the high half first, from 0123456789abcdef |
| `Hex.EncodeIsLowerCase` | desktop/hammurabi-handoff/src/vault.rs:168-171 | nothing but digits and the letters a to f |
| `Hex.DecodePair` | desktop/hammurabi-handoff/src/vault.rs:213-218 | a pair of digits of either case is the byte with the first as its high half |
| `Intents.Payload` | desktop/hammurabi-handoff/src/intent.rs:81-83 | the payload of an intent is well formed and free of floats, so canonicalization never refuses it |
| `Intents.PayloadFields` | desktop/hammurabi-handoff/src/intent.rs:24-62 | each of the nine fields is in the payload under its own JSON key, the side as "buy" exactly for Buy and "sell" exactly for Sell, and nothing else is |
| `Intents.PayloadDecidesIntent` | desktop/hammurabi-handoff/src/intent.rs:81-83 | two intents have the same payload as JSON values exactly when they are equal |
| `X402.BackendSettle` | desktop/hammurabi-handoff/src/settlement_backend.rs:126-148 | the mock always settles; the facilitator exactly with a payment it accepts; either way the receipt has its id, the intent's id, 500000 and the caller's clock |
| `X402.X402Gate.constructor` | desktop/hammurabi-handoff/src/x402.rs:125-131 | a gate starts with an empty treasury |
| `X402.X402Gate.Settle` | desktop/hammurabi-handoff/src/x402.rs:146-157 | on success the receipt for this intent, this id, 500000 and this clock is held, every other receipt is kept as it was or gone exactly when 600 seconds old; on failure the treasury is as before |
| `X402.X402Gate.MockSettle` | desktop/hammurabi-handoff/src/x402.rs:162-173 | the same, always succeeding |
| `X402.X402Gate.Sweep` | desktop/hammurabi-handoff/src/x402.rs:203-205 | keeps exactly the receipts with now < cleared + 600, unchanged, over all of `i64` |
| `X402.X402Gate.Redeem` | desktop/hammurabi-handoff/src/x402.rs:178-189 | the unknown-receipt error exactly without it, the mismatch error exactly for another intent, otherwise the receipt as it was held; whatever was found is gone afterwards, and nothing else |
| `X402.FreshReceiptPays` | desktop/hammurabi-handoff/src/x402.rs:146-189 | just after its settlement a receipt pays for its own intent, is a mismatch for any other, and is unknown once presented |
| `X402.SettleThenRedeem` | desktop/hammurabi-handoff/src/x402.rs:146-189 | the calls in a row: settle for one intent, present for the same or another, present again |
| `X402.RecordExactly` | desktop/hammurabi-handoff/src/x402.rs:146-157 | what a settlement leaves in the treasury, receipt by receipt |
| `X402.SaturationIsHarmless` | desktop/hammurabi-handoff/src/x402.rs:203-205 | over all of `i64` the saturating test keeps a receipt exactly when now < cleared + 600 |
| `X402.TreasuryBound` | desktop/hammurabi-handoff/src/x402.rs:108-115 | in any run, whatever the clocks did, just after a settlement at t the treasury is no larger than the number of settlements cleared after t - 600 |
| `X402.SettledSinceCounts` | desktop/hammurabi-handoff/src/x402.rs:108-115 | the number in that bound counts the calls that are settlements cleared later |
| `X402.Retention` | desktop/hammurabi-handoff/src/x402.rs:198-205 | an unpresented receipt is still redeemable exactly while every later settlement cleared less than 600 seconds after it |
| `Vault.FlipBitTwice` | desktop/hammurabi-handoff/src/vault.rs:255 | a bit flip changes the signature and undoes itself |
| `Vault.CountFlips` | desktop/hammurabi-handoff/src/vault.rs:249-259 | the trial loop counts the refused flips |
| `Vault.TamperedWellFormed` | desktop/hammurabi-handoff/src/vault.rs:231-240 | the tampered payload is a JSON value again, whether the marker replaces a member or is added |
| `Vault.TamperingChangesMessage` | desktop/hammurabi-handoff/src/vault.rs:231-242 | the tampering probe changes the signed message except exactly for payloads that already carry its marker |
| `Vault.MarkedPayloadIsNeverMinted` | desktop/hammurabi-handoff/src/vault.rs:157-161 | those payloads are refused by every mint |
| `Vault.MintAcceptsExactly` | desktop/hammurabi-handoff/src/vault.rs:139-176 | under any scheme in which nothing is forged for these draws, a payload without floats is minted exactly when it does not carry the marker |
| `Vault.MintableExactly` | desktop/hammurabi-handoff/src/vault.rs:139-176 | some vault mints a credential for a payload exactly when it holds no float and not the probe's marker |
| `Vault.DecodeFixed` | desktop/hammurabi-handoff/src/vault.rs:213-218 | the decoded bytes, exactly when the text is hexadecimal of the asked length; otherwise the malformed error |
| `Vault.MintedCredentialWindow` | desktop/hammurabi-handoff/src/vault.rs:139-210 | a minted credential verifies for its payload at u exactly when now <= u < now + 60 and now + 60 fits an `i64`, under any signature scheme |
| `Vault.MintCredential` | desktop/hammurabi-handoff/src/vault.rs:139-176 | the mint run over the printer's own bytes and the probe loop gives what `MintProbes.MintExactly` describes; it names the receipt and verifies for its payload during exactly a minute |
| `MintProbes.MintExactly` | desktop/hammurabi-handoff/src/vault.rs:139-176 | a float is refused for its form; any other payload is minted exactly when its message verifies and the tampered, the two shifted, the eight flipped and the stranger's triples do not; the credential field by field, with a clean report; otherwise the report of what happened |
| `MintProbes.ReportExactly` | desktop/hammurabi-handoff/src/vault.rs:222-281 | each field of the report in terms of the verification primitive, the flips as the number of trials refused |
| `MintProbes.TamperedExactly` | desktop/hammurabi-handoff/src/vault.rs:231-240 | the tampered object has the marker 1 and the other members as they were; any other value is wrapped |
| `MintProbes.FlipBitExactly` | desktop/hammurabi-handoff/src/vault.rs:255 | a flip changes one byte by the weight of its bit and no other byte |
| `Settlement.DecodeHexArray` | desktop/hammurabi-handoff/src/settlement.rs:213-218 | the decoded bytes, exactly when the text is hexadecimal of the asked length; otherwise the malformed error |
| `Settlement.VerifyEnvelope` | desktop/hammurabi-handoff/src/settlement.rs:160-209 | the verifier as it runs accepts exactly when the intent has no float, digest and key material fit, the signature covers intent and issue time, the window is the strict minute and now lies in it |
| `Settlement.VerifiersAgree` | desktop/hammurabi-handoff/src/settlement.rs:193-209 | for every credential, payload, receipt and time the packaged envelope verifies exactly when the vault's own verifier accepts |
| `Settlement.PackagedWindow` | desktop/hammurabi-handoff/src/settlement.rs:78-114 | a packaged envelope verifies during exactly the minute after its mint |
| `Settlement.ReasonsAgreeExactly` | desktop/hammurabi-handoff/src/settlement.rs:160-209 | the two verifiers give the same answer, reason included, exactly when nothing else is wrong beside a bad time and the key material decodes beside a bad digest |
| `Settlement.WindowErrorsCarryTimes` | desktop/hammurabi-handoff/src/settlement.rs:160-209 | the window error carries the credential's own times and the clock, in both verifiers |
| `Settlement.VaultMaterialErrors` | desktop/hammurabi-handoff/src/vault.rs:183-210 | within its minute the vault tells a float from malformed key material |
| `Settlement.PayloadIsBound` | desktop/hammurabi-handoff/src/settlement.rs:186-209 | an envelope altered only in its intent verifies only for the same JSON value, or the two canonical forms are a digest collision |
| `Settlement.IntentIsBound` | desktop/hammurabi-handoff/src/settlement.rs:186-209 | an envelope altered in its intent verifies exactly for the minted intent and within its minute, or the two canonical forms are a digest collision |
| `Settlement.IntentsAreMinted` | desktop/hammurabi-handoff/src/intent.rs:81-83 | no intent carries the marker, so with nothing forged every paid intent is minted |
| `Mesh.MeshBus.constructor` | desktop/hammurabi-handoff/src/mesh.rs:89-96 | an empty log, numbered from zero |
| `Mesh.MeshBus.Post` | desktop/hammurabi-handoff/src/mesh.rs:102-121 | the message has the counter's old value, the operations channel and the post's sender, kind and body; the counter moves by one modulo 2^64; the log gains the message and drops its first line exactly if it was full |
| `Mesh.MeshBus.Append` | desktop/hammurabi-handoff/src/mesh.rs:111-118 | push and drain leave the last 2000 |
| `Mesh.FeedWindow` | desktop/hammurabi-handoff/src/mesh.rs:102-126 | after any n posts one at a time the log is exactly the last min(n, 2000), numbered consecutively (modulo 2^64) |
| `Mesh.FeedIsNumbered` | desktop/hammurabi-handoff/src/mesh.rs:102-126 | line by line: after n posts one at a time line j of the log is post n - |log| + j, with that number modulo 2^64 and that post's sender, kind and body |
| `Mesh.ReaderTestExactly` | desktop/hammurabi-handoff/src/mesh.rs:25-35 | with posts one at a time a nonzero lowest number is the right sign of missing lines exactly when none are missing or the counter is not in the first 2000 numbers of a new round |
| `Mesh.ReaderSeesTickets` | desktop/hammurabi-handoff/src/mesh.rs:25-35 | below 2^64 posts the numbers a reader sees in any interleaving are the tickets of the gap laws |
| `Mesh.EveryRunAccounted` | desktop/hammurabi-handoff/src/mesh.rs:102-121 | with overlapping posts every issued number is exactly once in flight, logged or evicted; the log is the last 2000 pushed |
| `Mesh.PostAllIsARun` | desktop/hammurabi-handoff/src/mesh.rs:102-121 | the one-at-a-time bus is the run that takes and pushes one ticket at a time: same numbers, same log |
| `Mesh.FeedInOrderExactly` | desktop/hammurabi-handoff/src/mesh.rs:123-126 | once all posts have finished, the retained feed is in number order exactly when none of the pushes it still holds overtook an earlier ticket |
| `Mesh.AllPushedInOrderExactly` | desktop/hammurabi-handoff/src/mesh.rs:59-60 | everything ever pushed, evicted lines included, is in number order exactly when no push overtook |
| `Mesh.GapTestExactly` | desktop/hammurabi-handoff/src/mesh.rs:25-35 | a nonzero lowest number tells a reader that lines were evicted, at every moment of a run, exactly when the first line pushed overtook none |
| `Mesh.GapTestFails` | desktop/hammurabi-handoff/src/mesh.rs:25-35 | two overlapping posts where it does not: nothing is evicted and the lowest number is 1 |
| `Mesh.OvertakingHappens` | desktop/hammurabi-handoff/src/mesh.rs:59-60 | two overlapping posts can be logged in the other order |
| `Protocol.StepKeeps` | desktop/hammurabi-handoff/src/server.rs:131-224 | every step of settlements and requests in flight keeps conservation, exclusiveness, authenticity and provenance |
| `Protocol.EveryRunIsGood` | desktop/hammurabi-handoff/src/server.rs:131-224 | so every reachable state of every interleaving has them: each issued receipt is in exactly one place |
| `ProtocolLaws.ReceiptsAddUp` | desktop/hammurabi-handoff/src/x402.rs:146-205 | issued receipts are exactly recording + held + in flight + enveloped + burned + evicted + spent |
| `ProtocolLaws.EnvelopesAreFunded` | desktop/hammurabi-handoff/src/server.rs:168-224 | each envelope has its own recorded settlement with its receipt, its intent and the fixed fee; envelopes and total fees never outgrow settlements |
| `ProtocolLaws.NeverReturns` | desktop/hammurabi-handoff/src/x402.rs:175-189 | a receipt that has left the treasury stays out for the rest of the run |
| `ProtocolLaws.RedeemedAtMostOnce` | desktop/hammurabi-handoff/src/x402.rs:175-189 | of all presentations of a receipt in a run at most one is let through, and it is where the receipt is now |
| `ProtocolLaws.KeysNeverRepeat` | desktop/hammurabi-handoff/src/settlement.rs:69-71 | credential ids in flight and idempotency keys of envelopes never repeat |
| `ProtocolLaws.TreasuryIsGateRun` | desktop/hammurabi-handoff/src/x402.rs:215-260 | the treasury of an interleaved run is the gate's own run over its calls |
| `ProtocolLaws.TreasuryStaysBounded` | desktop/hammurabi-handoff/src/x402.rs:108-115 | just after any recorded settlement, whatever is in flight, the treasury is within its ten-minute window |
| `ProtocolLaws.DeliveredEnvelopesVerify` | desktop/hammurabi-handoff/src/server.rs:181-223 | over the real vault every delivered envelope verifies during exactly the sixty seconds after its mint |
| `ProtocolHistory.EveryLabelIsTold` | desktop/hammurabi-handoff/src/server.rs:131-224 | wherever a receipt or request is, the run holds in order the steps that brought it there: burned after a presentation for another intent, evicted by a settlement ten minutes later, spent by a body or mint that failed |
| `ProtocolHistory.EnvelopeHistory` | desktop/hammurabi-handoff/src/server.rs:131-224 | behind each envelope, in order: the settlement of its intent, the recording, the presentation for that intent with it as the body, the mint and the packaging, all by one request; the envelope is the package of exactly that mint |
| `ProtocolHistory.IssuedExactly` | desktop/hammurabi-handoff/src/x402.rs:146-157 | a receipt is issued exactly if the run settled it: that id, that intent, that clock, for 500000 |
| `ProtocolHistory.RecordedExactly` | desktop/hammurabi-handoff/src/x402.rs:146-157 | a receipt has reached the treasury exactly when the run recorded it |
| `Server.HandoffState.constructor` | desktop/hammurabi-handoff/src/server.rs:48-57 | one gate, one feed, both empty |
| `Server.HandoffState.X402Settle` | desktop/hammurabi-handoff/src/server.rs:131-164 | settles through the gate; a payment line about the new receipt on success, a restriction line about the intent and the error on failure |
| `Server.HandoffState.PaymentGuard` | desktop/hammurabi-handoff/src/x402.rs:215-260 | refuses without a receipt header before touching the treasury; otherwise redeems, posting only on refusal |
| `Server.HandoffState.Execute` | desktop/hammurabi-handoff/src/server.rs:168-224 | body check, mint, package; one line for a refused mint, two for an accepted one, none for a mismatched body |
| `Server.HandoffState.Handle` | desktop/hammurabi-handoff/src/server.rs:75-86 | the guard in front of the body and the handler |
| `ServerLaws.GuardIsARun` | desktop/hammurabi-handoff/src/x402.rs:215-260 | the guard alone is a step of the transition system |
| `ServerLaws.StepsAreARun` | desktop/hammurabi-handoff/src/server.rs:168-224 | for any vault, a call handled without interruption is a run behind any history, with any other requests in flight |
| `ServerLaws.GivingUpIsARun` | desktop/hammurabi-handoff/src/x402.rs:215-260 | at any point of any run a request past the guard can end without reaching the mint; its receipt is spent then |
| `ServerLaws.CallIsARun` | desktop/hammurabi-handoff/src/server.rs:168-224 | over the real vault that run has the handler's treasury, and delivers exactly the envelope the handler answers with |
| `ServerLaws.SettlementIsARun` | desktop/hammurabi-handoff/src/server.rs:131-164 | so is a settlement, with the gate's treasury |
| `ServerLaws.SecondPresentationIsRefused` | desktop/hammurabi-handoff/src/x402.rs:175-189 | whatever became of the first presentation and whatever ran since, a second one is answered with payment required and changes nothing |
| `ServerLaws.GuardCases` | desktop/hammurabi-handoff/src/x402.rs:215-260 | the guard case by case: without a receipt, unknown, for another intent, or good: the answer, and the line with what it is about |
| `ServerLaws.HandlingCases` | desktop/hammurabi-handoff/src/server.rs:168-224 | behind the guard: a body that does not parse, another intent, a refused mint with its own error, or the envelope with its two lines in order |
| `ServerLaws.RefusalsPassThrough` | desktop/hammurabi-handoff/src/x402.rs:215-260 | what the guard refuses is refused whatever the body, and posts no further line |
| `ServerLaws.AcceptedExactly` | desktop/hammurabi-handoff/src/server.rs:168-224 | a call is accepted exactly when its receipt is held, header and body name its intent and the mint agrees; the envelope then verifies for exactly a minute |
| `ServerLaws.SilentExactly` | desktop/hammurabi-handoff/src/server.rs:173-185 | a call leaves no feed line exactly when its receipt is good but its body does not parse or names another intent; the paid receipt is gone then |
| `FeedAudit.PostsByLine` | desktop/hammurabi-handoff/src/server.rs:168-224 | what a call posts, line by line |
| `FeedAudit.CallCausesItsPosts` | desktop/hammurabi-handoff/src/server.rs:168-224 | the steps of a call with a receipt cause exactly the lines its handlers post, beside those of whatever ran before |
| `FeedAudit.SettlementCausesItsPost` | desktop/hammurabi-handoff/src/server.rs:131-164 | the steps of a settlement cause exactly the payment line its handler posts |
| `FeedAudit.CausedLinesCount` | desktop/hammurabi-handoff/src/server.rs:131-224 | in every run the lines its steps cause count recorded receipts, envelopes, minted credentials and refused mints |
| `FeedRuns.BothAreRuns` | desktop/hammurabi-handoff/src/mesh.rs:102-121 | with lines owed by their step and numbered and pushed later, the pipeline still makes one of its runs and the feed one of its own |
| `FeedRuns.EveryLineOnce` | desktop/hammurabi-handoff/src/mesh.rs:102-121 | in every such interleaving each caused line is owed, in flight, or posted (in the log or evicted), exactly once |
| `FeedRuns.LinesCount` | desktop/hammurabi-handoff/src/server.rs:131-224 | posted and pending lines together count: payments the recorded receipts, settlements the envelopes, credentials the minted ones, refused mints with silent ends the spent receipts |
| `FeedRuns.PaymentsBalance` | desktop/hammurabi-handoff/src/mesh.rs:3-8 | with nothing pending, payment lines posted are exactly held + burned + evicted + in flight + settlement lines + refused mints + silent ends |
| `FeedRuns.QuietIsReachable` | desktop/hammurabi-handoff/src/mesh.rs:102-121 | from every run, posting alone leads to a state with nothing pending and the pipeline unchanged |
| `FeedRuns.FeedShowsAllExactly` | desktop/hammurabi-handoff/src/mesh.rs:123-126 | the retained feed shows every line there is exactly when nothing is pending and at most 2000 numbers were ever taken; it has forgotten lines exactly after more than 2000 posts |
| `FeedRuns.ReaderSeesGapsExactly` | desktop/hammurabi-handoff/src/mesh.rs:25-35 | in every interleaving of the pipeline with its feed the same test for gaps is right throughout exactly when the first push overtook none |

## Left out

- Ed25519, X25519, BLAKE3 and the sealing wrappers: uninterpreted functions. An invalid
  key and an invalid signature are one refusal, as every caller treats them.
- The integer width of leaf counts and indices (`usize`, `u64`): unbounded here.
- MerkleForests.MerkleForest.Verify: assumes the cached peaks are those of the leaves, which
  every forest built by `append` has; a forest restored from arbitrary JSON need not.
- `to_json`, `from_json` and the accessors of the forest.
- Floating-point numbers keep only their bit pattern: the printer refuses all of them, and
  the reader reads none. ECMAScript number form (section 3.2.2.3 of RFC 8785) beyond 2^53 is
  not claimed.
- JSON objects are member sequences with distinct keys; that `serde_json` keeps keys distinct
  is stated by `Json.WellFormed`, not proved. The sort is modelled by its result.
- Error texts: an error carries its kind, and its data where a later step depends on it.
- Axum, Tauri, header syntax, body limits, the feed and announce routes, the OKX bridge: any of
  their requests is another call of the modelled handlers.
- The live facilitator client: its verdict on a payment is a parameter of the backend.
- The envelope's constant fields, `to_broadcast_json`, and the payment terms beyond the intent.
- The wording of feed lines, their wall-clock text, the live broadcast and lagging subscribers.
- A call of `/execute` with another HTTP method: the guard is layered over the whole method
  router, so it redeems a receipt before the 405 answer too, without a feed line. In the
  transition system this is `Abandoned`; the handler methods model POST only.
- The order in which one request's own lines are posted: `FeedRuns` lets owed lines be numbered
  in any order.
- Mesh.GapTestExactly: speaks of tickets, which never repeat; the number a reader sees is the ticket
  modulo 2^64 (`Mesh.ReaderSeesTickets` for the first 2^64 posts). What the wrapped counter does
  is stated for posts one at a time (`Mesh.ReaderTestExactly`).
- Mesh.FeedInOrderExactly: orders tickets in the same sense.
- Poisoned locks, crashes between steps and the zeroization of key material.
- The token state machine and the manifest types.
