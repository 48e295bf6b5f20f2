# Verified models of Open Derja

Dafny models of the algorithms and state machines of the Open Derja platform, with proofs of what they promise. The
platform collects dialect texts, cuts them into corpus items, drops near duplicates, sends the items through a task
workflow of reviewers and annotators, computes their consensus, and signs its users in. Every module models one part:

| modules | part |
|---|---|
| `Utf16`, `Lcs`, `CanonicalMap`, `Projection`, `CopiedSpans`, `Tokenize` | aligning a text with its canonical form and carrying spans over |
| `SplitText`, `Ingestion` | cutting a document and finding the offsets of the pieces again |
| `Word32`, `Whitespace`, `MinHash`, `NearDuplicate`, `DataPlane`, `DedupAgreement` | near-duplicate detection, in TypeScript and in Rust, and that the two agree |
| `Agreement`, `Consensus`, `ConsensusRuns`, `RegionReassignment` | inter-annotator agreement, and when the stored consensus rows match the tags |
| `IdemKey`, `TaskTable`, `TaskRuns`, `TaskSteps` | idempotency keys, the task table, and its calls in any interleaving |
| `Workflow`, `WorkflowKeys`, `WorkflowRows`, `WorkflowBudget`, `TasksService` | the task workflow of an item: keys, tokens, the rows of every call, and a bound on its work |
| `Sessions`, `SessionRuns`, `Lockout`, `LockoutRuns`, `EmailOtp`, `Base32`, `Base32Numbers`, `Totp` | refresh sessions and login lockout, with calls alone and overlapping, mailed codes, authenticator codes |
| `TextReplace`, `Templates`, `WikiRewrites`, `WikiBrackets`, `WikiLinkText` | the loops of the wikitext cleaner, and what nested links become |
| `RobotsRules`, `RobotsParser`, `RobotsGroups` | robots.txt |

`Common` holds shared datatypes. Loops over mutable state are methods with the same loops, proved equal to a
specification function; services that update tables are classes over those tables. What the source promises is then
proved about the specification functions, for every input, every run or every reachable state, in
terms of their own.
`dafny verify dfyconfig.toml` verifies everything.

## What the proofs show

- **Alignment.** The dynamic program and its backtrace are optimal. Because they are, the two sides of a gap share no
  character, and the segments tile both texts. Among the longest lists the walk picks the one furthest to the right.
  Projected spans stay in range, ordered and disjoint, although both endpoints are rounded separately; each end
  divides its segment in proportion, halves going up, and a span keeps its text exactly when it lies in one run.
- **Ingestion.** Pieces are searched for with a moving cursor after trimming. The search never misses and never finds
  an earlier copy, because an earlier occurrence would have to start inside the white space that was trimmed away. The
  stored rows are those of the leaves that the duplicate check lets through, in order, each under its parent.
- **Near duplicates.** The two implementations agree exactly on texts of single UTF-16 units without U+0085 and
  U+FEFF, the two characters on which `\s` and `char::is_whitespace` differ. Outside them normal forms and shingles
  differ.
- **Tasks.** Every call is given by the rows it changes and the follow-ups that are there afterwards: an approved
  review always has its three, a rejected one has none. An item whose text has T tokens causes at most 11 + T tasks,
  plus the weight of the finished tasks that rework, release, reassignment or a ban bring back. The twelfth follow-up
  one could expect does not exist: the two adjudications that one review can ask for have the same key. The limit of
  five claims holds for calls that do not overlap; with k calls in flight it is 4 + k, and that is met for every k. A
  completion is checked in one statement and written in another, which tests nothing: done tasks were completed by
  their claimant exactly in the runs where each write still finds the claim, and a release in between breaks it.
- **Consensus.** Rows follow the tags, whatever the order or duplication of tags. A refresh reads and writes in
  separate statements, so refreshes of one key may overlap; rows stay right as long as, once the last refresh has
  read, no older read is written after it, and exactly when the upsert that comes last writes what the latest read has
  computed. The bulk region reassignment rewrites tags without a refresh, and each row is right afterwards exactly
  when it was already.
- **Mailed codes.** No code is consumed twice. With k guesses of a code and j issue calls in flight, a code takes at
  most 4 + k wrong guesses, and at most j codes are issued a cooldown; both bounds are met for every k and j. Guesses
  checked after the expiry of a code never count.
- **Sessions.** Rotation, replay detection and version bumps hold over whole runs of calls that do not overlap. A
  refresh reads session and user and then updates the session by its id alone. Even so, one token per session is
  accepted at most, and revoked sessions and old versions stay refused. What overlapping refreshes do break: one token
  can be exchanged twice, exactly when an update finds another value than its token's; and a revoked session gets a
  token from a refresh that was already on its way, which is then not accepted.
- **Logins.** A failing login writes the count that it has read plus one. Any number of logins that read together
  count as one; with k logins under way, five failures become at most k + k^2 + k^3 + k^4 + k^5, plus k a lockout.
- **Authenticator codes.** Codes are those of RFC 4226, and secrets are their bytes as a number in base 32.
  Verification throws during the first step of the epoch, because it asks for the code of step -1 first; from then on
  every code verifies within its window. A secret whose length is not a multiple of 5 bytes loses its last byte in the
  encoding; the default of 20 bytes loses nothing.
- **Wikitext.** All loops end. Every round has two replaces, and the second takes any link whole. So the result of a
  text with balanced brackets depends on when each link's body becomes plain, and is given exactly, at any depth. A
  link whose shown text contains only links with targets keeps its own target and bar: `[[x|[[a|b]]]]` becomes `x|b`.
- **robots.txt.** The groups of any text are the stretches between agent lines that follow no agent line. Ties between
  an allow and a disallow go to file order, where the standard prefers the allow. The verdicts differ exactly when a
  deciding disallow is followed by an allow for the very same path.

## Conventions

- The alignment and ingestion modules work on sequences of UTF-16 units. The duplicate check works on 32-bit words:
  UTF-16 units on the TypeScript side, scalar values on the Rust side. The wikitext, robots.txt and key modules use
  `string`; their delimiters are ASCII, so surrogates never take part in a match.
- Ratios, the projection and the agreement are exact rationals, not floating-point numbers. `Math.round` sends halves
  up, and `Math.floor` is floor division.
- The Unicode classes of words, `toUpperCase` and `toLowerCase` are parameters, as are the clock, random values, HMAC
  digests and the answers of the duplicate check, one for each leaf that it is asked about. Random session values are
  fresh. SHA-256 is injective: keys and codes are compared by the text that is hashed.
- Tables are sequences or maps. Row numbers follow creation time. An update that would break the live-key index
  (`db/migrations/20260823131356_init/migration.sql:895-897`) fails as a whole.
- In `TaskRuns`, `ConsensusRuns`, `SessionRuns`, `LockoutRuns` and `EmailOtp` the reads of a call and its write are
  separate steps, which may interleave with all others: for claims, completions, consensus refreshes, session
  refreshes, logins, code issues and code guesses. In `Workflow`, `Sessions` and `Lockout` a call is one step.

## Model

| member | source | states |
|---|---|---|
| `Lcs.LengthIsUpperBound` | control-plane/backend/core/src/standardisation/canonical-map.ts:101-108 | No common subsequence of two prefixes is longer than the table entry for them |
| `Lcs.BacktraceReachesLength` | control-plane/backend/core/src/standardisation/canonical-map.ts:110-125 | The walk back, which always takes the diagonal on equal characters, collects exactly as many matches as the table entry says |
| `Lcs.BacktraceIsLongest` | control-plane/backend/core/src/standardisation/canonical-map.ts:96-126 | The match list pairs equal characters, increases strictly on both sides, and no common subsequence of the two texts is longer |
| `Lcs.BacktraceIsRightmost` | control-plane/backend/core/src/standardisation/canonical-map.ts:110-125 | Of all longest lists the walk returns the one furthest to the right in the canonical text: no longest list has its t-th match at a greater canonical index, for any t |
| `Lcs.LengthFitsTexts` | control-plane/backend/core/src/standardisation/canonical-map.ts:99-107 | Table entries never exceed either text length, so the 32-bit cells cannot wrap for any string JavaScript can hold |
| `Lcs.FillTable` | control-plane/backend/core/src/standardisation/canonical-map.ts:99-108 | The nested loops leave the recurrence in every cell of the table |
| `Lcs.LongestCommonSubsequenceMatches` | control-plane/backend/core/src/standardisation/canonical-map.ts:96-126 | Table, walk and reversal together return the longest match list in increasing order |
| `CanonicalMap.GapSharesNothing` | control-plane/backend/core/src/standardisation/canonical-map.ts:33-40 | Between two neighbouring matches of a longest list, no character of the original piece equals one of the canonical piece |
| `CanonicalMap.LastOfRun` | control-plane/backend/core/src/standardisation/canonical-map.ts:22-31 | The inner loop stops at the last match of the diagonal: all matches up to it are consecutive and the next one is not |
| `CanonicalMap.PushGapAndRun` | control-plane/backend/core/src/standardisation/canonical-map.ts:33-48 | One round keeps the tiling, stands for the matches read so far and leaves both cursors after the run |
| `CanonicalMap.ComputeCanonicalMap` | control-plane/backend/core/src/standardisation/canonical-map.ts:13-62 | The segments tile both texts from (0,0) to (n,m) in step, alternate between equal-text runs and gaps whose two sides share no character, and the runs stand for exactly the longest match list |
| `CanonicalMap.IdenticalTextsGiveOneRun` | control-plane/backend/core/src/standardisation/canonical-map.ts:13-62 | A non-empty text aligned with itself is one segment over the whole text |
| `Projection.ProjectionDefinedIff` | control-plane/backend/core/src/standardisation/canonical-map.ts:69-72 | For a non-empty span the result is undefined exactly when the span misses the text or there are no segments |
| `Projection.ProjectionInRange` | control-plane/backend/core/src/standardisation/canonical-map.ts:64-79 | A non-empty span of the text projects to an ordered span inside the canonical text, and each end depends on its own endpoint only |
| `Projection.ProjectionKeepsProportion` | control-plane/backend/core/src/standardisation/canonical-map.ts:64-89 | Each end of a span lies in exactly one segment and its image divides the canonical side of that segment in the same proportion, to the nearest offset, halves going up: stated in whole numbers |
| `Projection.ProjectionCutsOff` | control-plane/backend/core/src/standardisation/canonical-map.ts:64-89 | An end outside the text goes to the end of the canonical text |
| `Projection.ProjectionMonotone` | control-plane/backend/core/src/standardisation/canonical-map.ts:64-89 | Moving an endpoint to the right never moves its image to the left, rounding included |
| `Projection.ProjectionKeepsDisjoint` | control-plane/backend/core/src/standardisation/canonical-map.ts:64-89 | Disjoint spans in order project to disjoint spans in the same order, rounding included |
| `CopiedSpans.CopiedExactlyInRuns` | control-plane/backend/core/src/standardisation/canonical-map.ts:64-89 | The projected slice of the canonical text equals the span exactly when the span lies in one run |
| `Projection.ImagesOrdered` | control-plane/backend/core/src/standardisation/canonical-map.ts:81-89 | All comparisons between start and end images of two offsets, across segment borders |
| `Tokenize.TokensAreWords` | control-plane/backend/core/src/text/tokenize.ts:7-16 | The spans are exactly the maximal words: inside words only, never touching, every word unit covered, surface text sliced out |
| `Tokenize.Tokenize` | control-plane/backend/core/src/text/tokenize.ts:9-16 | The loop returns those spans |
| `Tokenize.TokensProjectInOrder` | control-plane/backend/core/src/standardisation/canonical-map.ts:64-89 | All token spans of a text project to disjoint canonical spans in token order |
| `SplitText.SplitCovers` | control-plane/backend/core/src/ingestion/split-text.ts:4-16 | Split, trim and filter leave the whole text up to white space: pieces at their positions, trimmed, non-empty, only white space between them |
| `SplitText.CoversOrder` | control-plane/backend/core/src/ingestion/split-text.ts:4-16 | Pieces are disjoint and in text order |
| `SplitText.CoversOnce` | control-plane/backend/core/src/ingestion/split-text.ts:4-16 | Every character that is not white space lies in exactly one piece |
| `SplitText.SplitOnlyAtSeparators` | control-plane/backend/core/src/ingestion/split-text.ts:1-2 | Neighbouring pieces are separated by a blank line, or by white space after a sentence terminator |
| `SplitText.SplitAtEverySeparator` | control-plane/backend/core/src/ingestion/split-text.ts:1-2 | No such separator is left inside a piece |
| `Ingestion.SearchFindsPiece` | control-plane/backend/core/src/ingestion/ingest-document.ts:94-95 | `indexOf` from the end of the previous piece is never -1 and finds the next piece at its own position, not at an earlier equal text |
| `Ingestion.DocumentLeavesCover` | control-plane/backend/core/src/ingestion/ingest-document.ts:89-128 | Unsplit paragraphs and sentences of split ones, at parent offset plus own offset, cover the cleaned text up to white space |
| `Ingestion.EveryCharacterInOneLeaf` | control-plane/backend/core/src/ingestion/ingest-document.ts:89-128 | Every character that is not white space lies in exactly one leaf |
| `Ingestion.SpotsAreAll` | control-plane/backend/core/src/ingestion/ingest-document.ts:89-128 | The places of a document are its unsplit paragraphs and the sentences of the others, all of them and in text order |
| `Ingestion.IngestionIsFaithful` | control-plane/backend/core/src/ingestion/ingest-document.ts:86-134 | The k-th id is that of the k-th leaf for which the duplicate check says no, and all others are skipped; its row has the number of its paragraph or sentence as position and slices out of the cleaned text below its parent; the other new rows are one parent for each split paragraph |
| `Ingestion.Corpus.InsertLeafIfNotDuplicate` | control-plane/backend/core/src/ingestion/ingest-document.ts:25-63 | Either the row is appended under a new id, or nothing changes |
| `Ingestion.Corpus.IngestSentences` | control-plane/backend/core/src/ingestion/ingest-document.ts:118-126 | The sentence cursor stores the sentences that the check lets through, each at its true offset in the paragraph and under its number |
| `Ingestion.Corpus.IngestParagraphs` | control-plane/backend/core/src/ingestion/ingest-document.ts:90-128 | The paragraph cursor stores every parent and the unsplit paragraphs that the check lets through, each at its true offset in the cleaned text and under its number |
| `Ingestion.Corpus.SpawnReviews` | control-plane/backend/core/src/ingestion/ingest-document.ts:130-132 | Each new id gets exactly one review task and none is skipped |
| `Ingestion.Corpus.IngestDocument` | control-plane/backend/core/src/ingestion/ingest-document.ts:65-136 | The whole call: rows, ids and skip count as specified, nothing when the filters refuse the text, one review task per inserted leaf |
| `Word32.MixInjectiveInHash` | data-plane/src/dedup/minhash.rs:50-51 | For a fixed character the hash step is injective on 32-bit words |
| `Word32.MixInjectiveInUnit` | data-plane/src/dedup/minhash.rs:50-51 | For a fixed hash the step tells any two characters apart |
| `Word32.MixBits` | control-plane/backend/core/src/ingestion/near-duplicate.ts:24-25 | Bit by bit: the places in which hash and character differ, times 2654435761 modulo 2^32, and then every place is flipped if the place fifteen above it is a 1 |
| `MinHash.ShinglesAre` | control-plane/backend/core/src/ingestion/near-duplicate.ts:8-19 | The shingles of a text are its windows of three characters, or a shorter text as a whole |
| `MinHash.HashMixesInOrder` | control-plane/backend/core/src/ingestion/near-duplicate.ts:21-28 | The hash is the last state of the mixing that starts with the seed and takes the characters from first to last |
| `Word32.JsMixIsMix` | control-plane/backend/core/src/ingestion/near-duplicate.ts:24-25 | Signed `Math.imul`, `^` and `>>>` give the same 32 bits as unsigned wrapping arithmetic |
| `MinHash.SignatureIsUnique` | data-plane/src/dedup/minhash.rs:61-68 | A shingle set has one signature, so the order in which a hash set is walked cannot show |
| `MinHash.SignatureOfUnion` | data-plane/src/dedup/minhash.rs:56-70 | The signature of a union of shingle sets is the pointwise minimum |
| `MinHash.OneChangeNeverCollides` | data-plane/src/dedup/minhash.rs:47-54 | Two shingles of one length that differ in exactly one place hash differently under every seed |
| `MinHash.ThresholdIs55Slots` | data-plane/src/dedup/lsh.rs:3-11 | The threshold 0.85 means at least 55 of 64 equal slots |
| `MinHash.SameShinglesScoreOne` | data-plane/src/dedup/lsh.rs:5-11 | Equal shingle sets are rated 1 |
| `MinHash.SimilarityIsShare` | control-plane/backend/core/src/ingestion/near-duplicate.ts:43-51 | The estimate times the number of slots is the number of slots in which both signatures agree |
| `MinHash.MatchesAreNear` | control-plane/backend/core/src/ingestion/dedup-client.ts:23-33 | The match list holds exactly the candidates rated at least 0.85, once each and in order, each with its rating |
| `Whitespace.SqueezeThenTrim` | control-plane/backend/core/src/ingestion/near-duplicate.ts:9 | Collapse-then-trim leaves the words joined by single blanks |
| `Whitespace.TrimThenSqueeze` | data-plane/src/dedup/minhash.rs:15-30 | Trim-then-collapse leaves the words joined by single blanks |
| `NearDuplicate.MakeShingles` | control-plane/backend/core/src/ingestion/near-duplicate.ts:8-19 | The loop builds exactly the set of three-unit windows, or the one short text |
| `NearDuplicate.Hash32` | control-plane/backend/core/src/ingestion/near-duplicate.ts:21-28 | The signed loop with a final `>>> 0` computes the unsigned hash of the truncated seed |
| `NearDuplicate.ComputeMinHashSignature` | control-plane/backend/core/src/ingestion/near-duplicate.ts:30-41 | Lowering the slots in place, in any order of shingles, gives the signature, and no slot stays at infinity |
| `NearDuplicate.EstimateJaccardSimilarity` | control-plane/backend/core/src/ingestion/near-duplicate.ts:43-51 | The share of equal slots, and 0 for unequal or zero lengths |
| `NearDuplicate.CheckNearDuplicatesLocally` | control-plane/backend/core/src/ingestion/dedup-client.ts:23-33 | Exactly the candidates rated at or above the threshold, in order, with their ratings; the verdict is whether there are any |
| `NearDuplicate.CheckNearDuplicates` | control-plane/backend/core/src/ingestion/dedup-client.ts:35-59 | No candidates, no match; a remote answer is passed through; no address, a refusal and an error fall back to the local check |
| `DataPlane.NormaliseWhitespace` | data-plane/src/dedup/minhash.rs:15-30 | The character loop over the trimmed text computes trim-then-collapse |
| `DataPlane.HashSeeds` | data-plane/src/dedup/minhash.rs:7-13 | 64 seeds, of which seed i is (i + 1) times 2654435761, wrapped to 32 bits |
| `DataPlane.Hash32` | data-plane/src/dedup/minhash.rs:47-54 | The loop computes the hash of the shingle |
| `DataPlane.ComputeMinHashSignature` | data-plane/src/dedup/minhash.rs:56-70 | The signature, whatever the order of the hash set; `u64::MAX` never survives |
| `DataPlane.FindNearDuplicates` | data-plane/src/dedup/lsh.rs:18-33 | The match list of the service |
| `DedupAgreement.NormalFormsAgreeIff` | control-plane/backend/core/src/ingestion/near-duplicate.ts:9 | Both sides see the same normal form exactly when the text has no character beyond U+FFFF, no U+0085 and no U+FEFF |
| `DedupAgreement.ShinglesAgreeIff` | control-plane/backend/core/src/ingestion/near-duplicate.ts:8-19 | Both sides cut the text into the same shingles exactly under that condition: no difference of the normal forms is lost in the windows |
| `DedupAgreement.SignaturesAgree` | data-plane/src/dedup/minhash.rs:56-70 | On such texts both implementations give one signature |
| `DedupAgreement.MatchListsAgree` | control-plane/backend/core/src/ingestion/dedup-client.ts:35-59 | On such texts both implementations give one match list, so falling back changes nothing |
| `DedupAgreement.WhitespaceVariantsScoreOne` | control-plane/backend/core/src/ingestion/near-duplicate.ts:8-51 | Texts with the same words, however spaced, are rated 1, by the fallback and by the service |
| `Agreement.ComputeJaccard` | control-plane/backend/core/src/consensus/agreement.ts:46-58 | The loop counts the intersection; two empty sets are rated 1 |
| `Agreement.ShareIsJaccard` | control-plane/backend/core/src/consensus/agreement.ts:46-58 | The value is the one number that, times the number of values in either set, gives the number of values in both, and 1 for two empty sets |
| `Agreement.SumPairs` | control-plane/backend/core/src/consensus/agreement.ts:27-34 | The nested loops visit every pair once |
| `Agreement.MeanIsOverOrderedPairs` | control-plane/backend/core/src/consensus/agreement.ts:27-35 | The mean times n * n - n is the sum of the similarities of all n * n ordered pairs, less the n pairs of an annotator with itself |
| `Agreement.ComputeAgreement` | control-plane/backend/core/src/consensus/agreement.ts:11-44 | For any number of annotators: agreed values are the intersection, all values the union, agreement the rounded mean (1 below two annotators), adjudication exactly when the exact mean of two or more is below 0.595 |
| `Agreement.RoundingThreshold` | control-plane/backend/core/src/consensus/agreement.ts:35-42 | A rounded mean is below 0.6 exactly when the mean is below 0.595 |
| `Agreement.MeanBounds` | control-plane/backend/core/src/consensus/agreement.ts:27-35 | The mean lies between the size of the intersection over that of the union and 1 |
| `Agreement.MeanOneIff` | control-plane/backend/core/src/consensus/agreement.ts:27-35 | The mean is 1 exactly when all sets are equal |
| `Agreement.ConsensusIgnoresOrder` | control-plane/backend/core/src/consensus/agreement.ts:11-44 | The result does not depend on the order of annotators |
| `Consensus.ConsensusStore.RefreshConsensus` | control-plane/backend/core/src/consensus/refresh.ts:11-61 | Grouping, computing and upserting store the four columns of what recomputation from the human tags gives, and touch no other key |
| `Consensus.RecomputeIgnoresOrderAndDuplicates` | control-plane/backend/core/src/consensus/refresh.ts:26-31 | The result depends only on which annotator gave which value |
| `Consensus.RecomputeIsOverHumanTags` | control-plane/backend/core/src/consensus/refresh.ts:15-35 | Recomputation is the consensus of exactly those users who gave human tags on the key, once each and in any order, each with the values they gave |
| `ConsensusRuns.CallsTag` | control-plane/backend/src/modules/tasks/tasks.service.ts:93-124 | A tagging call adds exactly its tags on the right kind and span, keeps all others in place, and owes a refresh of exactly the keys that the service refreshes |
| `ConsensusRuns.RunsStayInSync` | control-plane/backend/src/modules/tasks/tasks.service.ts:93-124 | Over all runs of review, region tag, confirm, adjudicate and machine tags, with the read and the upsert of a refresh as separate steps and any number of them under way: if, while no refresh of the key is owed, its newest read is never written before an older one, the row is what recomputation gives once none is owed or under way |
| `ConsensusRuns.OneAtATimeIsInOrder` | control-plane/backend/core/src/consensus/refresh.ts:11-61 | Refreshes of the key that do not overlap meet that condition |
| `ConsensusRuns.AlwaysInSyncIff` | control-plane/backend/core/src/consensus/refresh.ts:11-61 | Over every run: the row is right in every state with nothing owed or under way exactly when each upsert that leaves nothing owed or under way writes the row of the latest read |
| `ConsensusRuns.OverlappingRefreshesGoStale` | control-plane/backend/core/src/consensus/refresh.ts:15-58 | Two refreshes of one key that read in one order and write in the other leave the row of one annotator where two have tagged, so the condition above fails |
| `RegionReassignment.ReassignRegionKeepsSyncIff` | control-plane/backend/src/modules/admin/data/data.service.ts:67-87 | After a bulk reassignment a settled key matches the tags exactly when its row already says so: the given regions by one annotator on the whole text, nobody on the other region spans of the item, as before elsewhere |
| `RegionReassignment.ReassignmentTags` | control-plane/backend/src/modules/admin/data/data.service.ts:67-87 | All region tags of the item go, on whatever span, human or not; those given come on the whole text; all other tags stay |
| `RegionReassignment.ReassignmentGoesStale` | control-plane/backend/src/modules/admin/data/data.service.ts:67-87 | One tag, one refresh and a reassignment to another region leave a stale row |
| `IdemKey.ParseUndoesSpanSlot` | control-plane/backend/core/src/tasks/idem-key.ts:8-15 | Parsing undoes printing for every span |
| `IdemKey.KeyTextInjective` | control-plane/backend/core/src/tasks/idem-key.ts:4-6 | The text that is hashed determines item, type, version and slot |
| `TaskTable.SpawnSkipsIff` | control-plane/backend/core/src/tasks/spawn.ts:16-42 | A spawn is skipped exactly when a live task has the same key, and otherwise appends an open task |
| `TaskTable.TaskStore.SpawnTask` | control-plane/backend/core/src/tasks/spawn.ts:16-42 | Inserts the row or reports the skip |
| `TaskTable.TaskStore.SpawnTasks` | control-plane/backend/core/src/tasks/spawn.ts:44-59 | Spawned plus skipped are all specs, and the table grows by the spawned ones |
| `TaskTable.TaskStore.CountActiveClaims` | control-plane/backend/core/src/tasks/claim.ts:14-16 | The number of rows that are claimed by the user |
| `TaskTable.TaskStore.FindNext` | control-plane/backend/core/src/tasks/claim.ts:40-46 | The eligible row of highest priority, oldest first, or none when nothing is eligible |
| `TaskTable.TaskStore.ClaimNextTask` | control-plane/backend/core/src/tasks/claim.ts:13-58 | Refused exactly at five live claims or with nothing eligible; otherwise that row gets status, user and time, and no other row changes |
| `TaskTable.TaskStore.ReleaseExpiredClaims` | control-plane/backend/core/src/tasks/claim.ts:60-67 | Reopens exactly the claims older than 7200000 ms, leaves every other row as it is, and returns the number of rows changed |
| `TaskTable.TaskStore.UpdateRow` | control-plane/backend/core/src/tasks/lifecycle.ts:3-36 | One row changes, unless it is missing or the live-key index would break |
| `TaskTable.TaskStore.RevertCompleted` | control-plane/backend/src/modules/admin/users-admin/users-admin.service.ts:66-78 | Every done task of the user goes back for rework with all four names and times cleared and no other row changes, or nothing changes: exactly when two rows would then be live under one key |
| `TaskRuns.RunsStayConsistent` | control-plane/backend/src/modules/tasks/tasks.service.ts:386-392 | Over all interleavings, with checks and writes as separate steps: claimed rows have claimant and time, open and rework rows have neither, done rows have completer and time, live keys are unique |
| `TaskRuns.ExpiryReopensOldClaims` | control-plane/backend/core/src/tasks/claim.ts:60-67 | After any run, an expiry reopens every claim older than two hours, without name and time, and leaves every younger claim and every other row as it is |
| `TaskRuns.AtomicRunsCompleteByClaimant` | control-plane/backend/core/src/tasks/lifecycle.ts:3-18 | When a completion checks and writes in one step, every done task was completed by its claimant, over all interleavings of such calls |
| `TaskRuns.CompletedByClaimantIff` | control-plane/backend/src/modules/tasks/tasks.service.ts:76-79 | With the check and the write of a completion as separate steps, over all interleavings: done tasks were completed by their claimant in every state exactly when each write that takes effect finds its user still claimant |
| `TaskRuns.CompletionCanCrossRelease` | control-plane/backend/src/modules/tasks/tasks.service.ts:76-79 | From the empty table, a forced release between the check and the write leaves a done task whose completer is not its claimant |
| `TaskRuns.ClaimCap` | control-plane/backend/core/src/tasks/claim.ts:13-58 | Without reassignment and with at most k claim calls of a user in flight, the user never holds more than 4 + k claims: five when calls do not overlap |
| `TaskRuns.OverlappingClaimsReachCap` | control-plane/backend/core/src/tasks/claim.ts:14-19 | The bound is met for every k by a run from the empty table: four claims in turn, then k calls that all count before any of them claims |
| `TaskSteps.AloneIsCall` | control-plane/backend/src/modules/tasks/tasks.service.ts:64-79 | The statements of a claim, expiry, completion, rework, release, rejection, reassignment or ban, run one right after the other, do to the task rows what the call of the workflow does in one step |
| `WorkflowKeys.CallKeepsInv` | control-plane/backend/src/modules/tasks/tasks.service.ts:76-362 | Every service call keeps live keys unique, task versions within item versions, and a stored token for every link task |
| `WorkflowKeys.ReachableKeepsInv` | control-plane/backend/src/modules/tasks/tasks.service.ts:76-362 | So does every run |
| `WorkflowKeys.StandardiseSpawnsOnePerToken` | control-plane/backend/src/modules/tasks/tasks.service.ts:245-284 | In every such state, standardising spawns exactly one link task per token at the bumped version and skips none |
| `WorkflowKeys.LinkTaskFindsToken` | control-plane/backend/src/modules/tasks/tasks.service.ts:292-298 | In every reachable state a link task finds a token at its parsed span |
| `WorkflowRows.IngestRows` | control-plane/backend/core/src/ingestion/ingest-document.ts:130-132 | A new item has version 1 and one open review task for reviewers |
| `WorkflowRows.RefusedReviewRows` | control-plane/backend/src/modules/tasks/tasks.service.ts:87-89 | A refusal rejects the held review task and changes nothing else |
| `WorkflowRows.ApprovedReviewRows` | control-plane/backend/src/modules/tasks/tasks.service.ts:93-124 | An approval finishes the held review task in the name of the user; a live region task and a live MSA translation for contributors and a live standardisation for reviewers are there at the version of the item, one adjudication of the whole text if either verdict is low, and nothing else is new |
| `WorkflowRows.RegionTagRows` | control-plane/backend/src/modules/tasks/tasks.service.ts:129-153 | A finished region task has two live confirmations, and an adjudication of the whole text exactly if the verdict is low; nothing else is new |
| `WorkflowRows.ConfirmRows` | control-plane/backend/src/modules/tasks/tasks.service.ts:155-198 | A finished confirmation asks for nothing but that adjudication |
| `WorkflowRows.TranslateRows` | control-plane/backend/src/modules/tasks/tasks.service.ts:200-224 | A finished translation has a live transliteration into Arabic script for Arabizi, into Arabizi for Arabic script, and none for other scripts |
| `WorkflowRows.StandardiseRows` | control-plane/backend/src/modules/tasks/tasks.service.ts:245-284 | Standardising finishes the row, bumps the item by one, and adds for each word one token with its text and one open link task at the new version |
| `WorkflowRows.FinishedRow` | control-plane/backend/src/modules/tasks/tasks.service.ts:76-352 | The other completing calls make the held row done in the name of the user, and nothing else: linking a lemma never fails for want of a token |
| `WorkflowRows.OthersAreRefused` | control-plane/backend/src/modules/tasks/tasks.service.ts:386-392 | A completing call for a task that the user does not hold, or of another type, changes nothing |
| `WorkflowRows.ManagedRow` | control-plane/backend/core/src/tasks/lifecycle.ts:20-29 | Rework, release and reassignment change status, name and time of one row as named, exactly unless another live row has its key |
| `WorkflowRows.RejectedRow` | control-plane/backend/core/src/tasks/lifecycle.ts:31-36 | Rejecting a task always succeeds, and a missing task changes nothing |
| `WorkflowRows.ClaimedRow` | control-plane/backend/core/src/tasks/claim.ts:40-58 | A claim puts name and time on an offered row of a user who has fewer than five |
| `WorkflowRows.ClaimIsRefused` | control-plane/backend/core/src/tasks/claim.ts:13-46 | A claim of a user who has five, or of a row that is not offered, changes nothing |
| `WorkflowRows.ExpiredRows` | control-plane/backend/core/src/tasks/claim.ts:60-67 | Within the workflow, expiry never fails and reopens exactly the claims older than two hours |
| `WorkflowRows.BatchRows` | control-plane/backend/src/modules/admin/data/data.service.ts:42-54 | Rejecting a batch never fails and rejects exactly the unfinished tasks of its items |
| `WorkflowRows.BannedRows` | control-plane/backend/src/modules/admin/users-admin/users-admin.service.ts:66-78 | A ban with revert sends every completion of the user back, or none if two rows would then be live under one key |
| `WorkflowRows.ReassignedItem` | control-plane/backend/src/modules/admin/data/data.service.ts:67-87 | Moving an item to another region bumps its version once |
| `WorkflowBudget.AnyCallPaid` | control-plane/backend/core/src/tasks/spawn-rules.ts:5-65 | No call raises the weight of an item by more than the weight of the finished tasks it brings back, and a call that finishes one of its tasks lowers it by one more |
| `WorkflowBudget.RunPaid` | control-plane/backend/src/modules/tasks/tasks.service.ts:81-352 | Over every run, finished calls plus remaining weight never exceed the starting weight plus the weight of all tasks brought back |
| `WorkflowBudget.ItemWorkIsBounded` | control-plane/backend/src/modules/tasks/tasks.service.ts:81-352 | Over every run, an item whose text has T tokens gets at most 11 + T tasks, and at most 11 + T calls finish one of them, plus the weight of the tasks that rework, release, reassignment or ban bring back |
| `WorkflowBudget.GentleRunsReviveNothing` | control-plane/backend/src/modules/tasks/tasks.service.ts:354-362 | Nothing is brought back in runs where rework, release and reassignment hit unfinished tasks only and no banned user has completed one |
| `TasksService.Service.Claim` | control-plane/backend/src/modules/tasks/tasks.service.ts:64-74 | Refused exactly at five live claims or with nothing eligible; otherwise the next eligible row is claimed as in the specified call |
| `TasksService.Service.Review` | control-plane/backend/src/modules/tasks/tasks.service.ts:81-127 | Check, rejection or completion, three follow-ups and up to two adjudications end in the state of the specified call, whose rows WorkflowRows gives for either verdict |
| `TasksService.Service.LinkLemma` | control-plane/backend/src/modules/tasks/tasks.service.ts:286-324 | Completes the task exactly when the search finds a token of the item at the span in the slot |
| `TasksService.Service.Standardise` | control-plane/backend/src/modules/tasks/tasks.service.ts:245-284 | Version bump, the loop over the spans, completion and link tasks end in the state of the specified call |
| `Sessions.AtMostOneAccepted` | control-plane/backend/src/infra/auth/auth.service.ts:160-188 | In every reachable state at most one refresh token per session is accepted |
| `Sessions.RefreshRotates` | control-plane/backend/src/infra/auth/auth.service.ts:183-187 | After a refresh the new token is accepted and the one used is not |
| `Sessions.ReplayRevokesForGood` | control-plane/backend/src/infra/auth/auth.service.ts:173-176 | Replaying a superseded token of a live session issues nothing and revokes the session, whatever happens later |
| `Sessions.RevokedSessionIssuesNothing` | control-plane/backend/src/infra/auth/auth.service.ts:168-171 | With a refresh as one step, a revoked session never gets another token |
| `Sessions.BumpEndsOldTokens` | control-plane/backend/src/common/guards/auth.guard.ts:76-85 | After a version bump no earlier refresh or access token of the user is ever accepted |
| `Sessions.BanEndsSessions` | control-plane/backend/src/modules/admin/users-admin/users-admin.service.ts:59-74 | A ban leaves administrators alone; contributors and reviewers turn inactive, get a new version, and lose all sessions |
| `Sessions.RoleChangeEndsSessions` | control-plane/backend/src/modules/admin/users-admin/users-admin.service.ts:91-103 | A change of role sets the role, a new version, and revokes all sessions of the user and no other |
| `SessionRuns.AtMostOneAccepted` | control-plane/backend/src/infra/auth/auth.service.ts:160-188 | With the session read, the user read and the update of a refresh as separate steps, at most one refresh token per session is accepted in every reachable state |
| `SessionRuns.RevokedSessionAcceptsNothing` | control-plane/backend/src/infra/auth/auth.service.ts:168-188 | A revoked session accepts no token in any later state, not even one that a late refresh issues |
| `SessionRuns.OldVersionsStayRefused` | control-plane/backend/src/common/guards/auth.guard.ts:76-85 | No token below the version of its user is accepted in any later state, not even one that a late refresh issues |
| `SessionRuns.RevokedSessionIssuesNothingIff` | control-plane/backend/src/infra/auth/auth.service.ts:168-188 | A revoked session gets no further token in any later run exactly when no refresh of it has read user and session, or has read the session and its user still passes |
| `SessionRuns.UsedOnceIff` | control-plane/backend/src/infra/auth/auth.service.ts:173-184 | Over every run, no token is exchanged twice exactly when each update finds the session at the value of its own token |
| `SessionRuns.OverlappingRefreshesExchangeTwice` | control-plane/backend/src/infra/auth/auth.service.ts:168-187 | From the empty tables, two refreshes that both read before either writes exchange one token twice, and the token of the first caller is not accepted |
| `SessionRuns.AloneIsRefresh` | control-plane/backend/src/infra/auth/auth.service.ts:160-188 | The statements of a refresh, run one right after the other, are the refresh in one step, whether it rotates, revokes or refuses |
| `Sessions.AuthService.StartNewSession` | control-plane/backend/src/infra/auth/auth.service.ts:71-81 | Creates a live session with the value drawn and signs both tokens for it, with role and version of the user |
| `Sessions.AuthService.RefreshTokens` | control-plane/backend/src/infra/auth/auth.service.ts:160-188 | New tokens exactly for a live session that carries the value of the token, of an active user at its version; another value on the session revokes it; any other refusal changes nothing |
| `Sessions.AuthService.EndSession` | control-plane/backend/src/infra/auth/auth.service.ts:268-276 | Revokes the session and no other |
| `Sessions.AuthService.RevokeAllSessions` | control-plane/backend/src/infra/auth/auth.service.ts:278-283 | Bumps the version by one and revokes every session of the user and no other |
| `Lockout.FailureRate` | control-plane/backend/src/infra/auth/auth.service.ts:91-116 | Failures since the last reset are at most 5 plus one per full 15 minutes between the fifth and the last |
| `LockoutRuns.AloneIsLogin` | control-plane/backend/src/infra/auth/auth.service.ts:91-116 | The read and the write of a login, one after the other, are that login |
| `LockoutRuns.OverlappingFailureRate` | control-plane/backend/src/infra/auth/auth.service.ts:96-106 | With at most k logins between read and write, failures since the last reset are at most k + k^2 + k^3 + k^4 + k^5 plus k for each 15 minutes passed: five plus one a lockout when logins do not overlap |
| `LockoutRuns.CountedIff` | control-plane/backend/src/infra/auth/auth.service.ts:98-106 | The stored count is the number of failures in every state exactly when each failing login finds the count it has read |
| `LockoutRuns.OverlappingFailuresCountOnce` | control-plane/backend/src/infra/auth/auth.service.ts:98-106 | However many logins fail, if all read before any writes, they count as one and lock nothing |
| `Lockout.LoginGuard.TryLogin` | control-plane/backend/src/infra/auth/auth.service.ts:91-116 | One login: refused without a trace while locked, counted when wrong and locked for 900000 ms from the fifth failure on, reset when right and active, left alone when right and inactive |
| `EmailOtp.NoCodeWinsTwice` | control-plane/backend/src/infra/auth/email-otp.service.ts:65-68 | However guesses interleave, no code is consumed successfully twice |
| `EmailOtp.GuessesPerCode` | control-plane/backend/src/infra/auth/email-otp.service.ts:60-72 | With at most k guesses of a code in flight it takes at most 4 + k wrong guesses: five when calls do not overlap |
| `EmailOtp.OverlappingGuessesMeetBound` | control-plane/backend/src/infra/auth/email-otp.service.ts:58-72 | The bound is met for every k: four wrong guesses in turn, then k that are all checked before any is written |
| `EmailOtp.CodeRate` | control-plane/backend/src/infra/auth/email-otp.service.ts:27-44 | With at most j issue calls between cooldown check and insert, at most j times one plus the full cooldowns since the first code are issued: one code a cooldown when calls do not overlap |
| `EmailOtp.OverlappingIssuesMeetRate` | control-plane/backend/src/infra/auth/email-otp.service.ts:27-44 | The bound is met for every j: calls that all check before any inserts issue j codes at once |
| `EmailOtp.GuessRate` | control-plane/backend/src/infra/auth/email-otp.service.ts:22-73 | Over all codes, wrong guesses are at most 4 + k times the codes of that bound |
| `EmailOtp.OtpStore.IssueCode` | control-plane/backend/src/infra/auth/email-otp.service.ts:27-44 | A code is issued exactly when the newest one is at least 60000 ms old, and expires its lifetime after it was issued |
| `EmailOtp.OtpStore.FindNewestOpen` | control-plane/backend/src/infra/auth/email-otp.service.ts:53-56 | Finds the newest code not yet consumed |
| `EmailOtp.CheckedInTime` | control-plane/backend/src/infra/auth/email-otp.service.ts:53-63 | A check lets a guess through only on the newest open row, not after its expiry, and below five wrong guesses |
| `EmailOtp.GuessesCheckedInTime` | control-plane/backend/src/infra/auth/email-otp.service.ts:52-73 | Over every run, the guesses that a code takes, right or wrong, and those under way are at most the checks made until its expiry: none stems from a later check |
| `EmailOtp.NoWinAfterExpiry` | control-plane/backend/src/infra/auth/email-otp.service.ts:57-68 | A code that was consumed by a guess was checked in time |
| `EmailOtp.OtpStore.Consume` | control-plane/backend/src/infra/auth/email-otp.service.ts:52-73 | Right exactly when the newest open code is not expired, has fewer than five wrong guesses and is the one guessed; an expired code stays as it is, a used up one is only consumed, a wrong guess is counted |
| `Base32.DigitsRoundTrip` | control-plane/backend/core/src/auth/totp.ts:11 | Binary digits padded to w places have w places and read back as the number |
| `Base32.GroupsOfFlatten` | control-plane/backend/core/src/auth/totp.ts:31-33 | Cutting concatenated groups gives them back, whatever shorter rest follows |
| `Base32.DecodeOfEncode` | control-plane/backend/core/src/auth/totp.ts:7-35 | Decoding an encoded secret, padded with `=` or not, gives the secret exactly when its length is a multiple of 5, and otherwise all bytes but the last |
| `Base32Numbers.EncodeChangesBase` | control-plane/backend/core/src/auth/totp.ts:7-18 | The letters A to Z and 2 to 7 are the digits in base 32 of the number that the bytes stand for, less the bits that fill no letter |
| `Base32Numbers.DecodeChangesBase` | control-plane/backend/core/src/auth/totp.ts:20-35 | Decoding fails exactly when, padding and white space aside and in upper case, some character is no letter; otherwise the bytes stand for the number of the letters, less the bits that fill no byte |
| `Base32Numbers.RemoveSpaceUndoes` | control-plane/backend/core/src/auth/totp.ts:21 | Removing white space leaves a text exactly when its input is that text with white space put in |
| `Base32.GenerateSecret` | control-plane/backend/core/src/auth/totp.ts:7-18 | The two loops encode the random bytes, dropping bits that fill no letter |
| `Base32.Base32Decode` | control-plane/backend/core/src/auth/totp.ts:20-35 | The two loops decode a cleaned text, or fail on a character outside the alphabet |
| `Totp.BufferHoldsCounter` | control-plane/backend/core/src/auth/totp.ts:38-39 | The buffer is the one list of eight bytes that, most significant first, is the counter |
| `Totp.HotpFollowsStandard` | control-plane/backend/core/src/auth/totp.ts:37-48 | Section 5.3 of RFC 4226: six digits that read, modulo a million, as the 31-bit number whose bytes are those of the digest at the offset in the low half of its last byte |
| `Totp.AppendixD` | control-plane/backend/core/src/auth/totp.ts:37-48 | The digest that appendix D of RFC 4226 lists for counter 1 gives the code 287082 listed there |
| `Totp.CounterCountsHalfMinutes` | control-plane/backend/core/src/auth/totp.ts:50-52 | The counter is the number of whole half minutes since the epoch |
| `Totp.VerifyAccepts` | control-plane/backend/core/src/auth/totp.ts:54-70 | Once the counter has reached the window, a token is accepted exactly when, white space aside, it is the code of a step within the window |
| `Totp.GeneratedCodeVerifies` | control-plane/backend/core/src/auth/totp.ts:50-70 | A code generated within w steps of 30 seconds verifies, exactly unless the counter is still below the window, where verification throws |
| `Totp.GeneratedSecretMakesCodes` | control-plane/backend/core/src/auth/totp.ts:7-70 | With a generated secret and the default window, a code verifies at every time within 30 seconds once the counter is at least 1 |
| `Totp.VerifyTotp` | control-plane/backend/core/src/auth/totp.ts:54-70 | The loop over the window computes the specified answer |
| `Templates.StripBalanced` | control-plane/scrapers/src/sources/wikitext.ts:1-24 | The loop with depth and cursor computes the specified stripping, for any pair of marks |
| `Templates.StripUndoesPrint` | control-plane/scrapers/src/sources/wikitext.ts:1-24 | Stripping a printed document of nested templates leaves exactly the text outside all templates |
| `Templates.StripKeepsStrayClosing` | control-plane/scrapers/src/sources/wikitext.ts:1-24 | A closing mark without an opening one stays as text |
| `Templates.StripDropsUnclosed` | control-plane/scrapers/src/sources/wikitext.ts:1-24 | An opening mark without a closing one drops everything after it |
| `Templates.StripLeavesNoOpening` | control-plane/scrapers/src/sources/wikitext.ts:1-24 | On every input, balanced or not, the output contains no `{{` |
| `Templates.StripIsIdempotent` | control-plane/scrapers/src/sources/wikitext.ts:1-24 | A second stripping changes nothing, and the first changes exactly the texts that contain `{{` |
| `TextReplace.ReplaceChangesIff` | control-plane/scrapers/src/sources/wikitext.ts:31-32 | A global replace changes a text exactly when the pattern matches somewhere, and then shortens it |
| `WikiRewrites.ReplaceWikiLinks` | control-plane/scrapers/src/sources/wikitext.ts:26-35 | The loop ends on every input, at the text the rounds lead to |
| `WikiRewrites.UnlinkedHasNoLink` | control-plane/scrapers/src/sources/wikitext.ts:26-35 | At the end no bracket-free `[[...]]` is left, and exactly the texts without one are returned unchanged |
| `WikiRewrites.StripHtmlComments` | control-plane/scrapers/src/sources/wikitext.ts:47-55 | The loop ends on every input, at the text the rounds lead to |
| `WikiRewrites.UncommentedHasNoComment` | control-plane/scrapers/src/sources/wikitext.ts:47-55 | At the end no complete comment is left, and exactly the texts without one are returned unchanged |
| `WikiRewrites.StripTakesComments` | control-plane/scrapers/src/sources/wikitext.ts:47-55 | A page of texts and comments comes out as all of its texts, exactly when those put together make no new comment: every comment ends at its nearest end mark |
| `WikiBrackets.PassReplaces` | control-plane/scrapers/src/sources/wikitext.ts:31-32 | On every text with balanced `[[` and `]]`, one replace resolves the innermost links and leaves all others, brackets included |
| `WikiBrackets.BalancedTextResolves` | control-plane/scrapers/src/sources/wikitext.ts:26-35 | Every text with balanced `[[` and `]]`, nested to any depth, comes out as a recursion over its links says: a link loses what precedes its first bar exactly when its body became plain in the second replace of a round, or was from the start |
| `WikiLinkText.RendersIff` | control-plane/scrapers/src/sources/wikitext.ts:26-35 | At any depth, a page comes out as the shown text of every link exactly when each named link has its shown text ready from the start or after a second replace, provided links inside of unnamed ones have |
| `WikiLinkText.InTimeRenders` | control-plane/scrapers/src/sources/wikitext.ts:26-35 | At any depth, links whose shown text is ready in time come out as that text |
| `WikiLinkText.OnceNestedRendersIff` | control-plane/scrapers/src/sources/wikitext.ts:26-35 | A page with links nested at most once comes out right exactly when no named link shows named links only |
| `WikiLinkText.NestedLinkKeepsTarget` | control-plane/scrapers/src/sources/wikitext.ts:26-35 | For example, a link with target `x` around one with target `a` and shown text `b` becomes `x`, the bar and `b` |
| `RobotsParser.ParseRobotsTxt` | control-plane/scrapers/src/http/robots.ts:11-42 | The line loop with current group and last field computes the specified groups |
| `RobotsParser.ParseUndoesPrint` | control-plane/scrapers/src/http/robots.ts:11-42 | Parsing printed groups of clean values, with either end of line and a comment on every line or none, gives them back exactly when each has an agent and each but the last has a rule |
| `RobotsGroups.ParsedGroups` | control-plane/scrapers/src/http/robots.ts:11-42 | On every text: an agent line that follows no agent line starts a group, which holds the agents and the non-empty rules of all lines up to the next start; lines before the first start belong to none |
| `RobotsParser.ParsedRulesHavePaths` | control-plane/scrapers/src/http/robots.ts:32-35 | On every text no rule has an empty path, and every group has an agent |
| `RobotsGroups.TokenIsName` | control-plane/scrapers/src/http/robots.ts:45 | Groups are matched against the product name in lower case, with or without a version |
| `RobotsRules.IncludesIff` | control-plane/scrapers/src/http/robots.ts:46 | An agent matches when it stands somewhere in that token |
| `RobotsRules.IsAllowed` | control-plane/scrapers/src/http/robots.ts:55-61 | The verdict is that of the first among the longest matching rules; without a match the path is allowed |
| `RobotsRules.DecidingRuleExists` | control-plane/scrapers/src/http/robots.ts:55-60 | There is a deciding rule exactly when some rule matches |
| `RobotsRules.StandardUnlessShadowed` | control-plane/scrapers/src/http/robots.ts:55-61 | The verdict is that of section 2.2.2 of RFC 9309 exactly when no later allow has the very path of a deciding disallow |
| `RobotsRules.EqualDisallowFirst` | control-plane/scrapers/src/http/robots.ts:55-61 | A disallow before an allow of the same path forbids it, where the standard allows it |
| `RobotsRules.SelectGroup` | control-plane/scrapers/src/http/robots.ts:44-49 | The first group that names the agent, else the first wildcard group, else none |
| `RobotsRules.IsPathAllowed` | control-plane/scrapers/src/http/robots.ts:51-62 | Without a group the path is allowed; otherwise the rules of the selected group decide |

## Left out

- Floating-point error in the projection, the agreement and the similarity: exact rationals are used.
- Interleavings inside a service call of the workflow: each is one step in `Workflow`; `TaskRuns` has the statements on the task table apart.
- Tags inside the workflow state: the outcome of a consensus refresh enters a call as an arbitrary verdict, which allows more runs than there are.
- WikiBrackets.BalancedTextResolves: says nothing about texts with single or unbalanced brackets; for those WikiRewrites shows that the loop ends and leaves no link.
- RobotsRules.StandardUnlessShadowed: compares prefix matching only; the code does not know the special characters of section 2.2.3 of RFC 9309.
- TaskTable.TaskStore.FindNext: rows locked by other transactions are not skipped, since the statement is one step.
- TaskTable.TaskStore.ClaimNextTask: count and claim of a call that runs alone, and without locked rows; TaskRuns has them as two steps.
- TaskTable.TaskStore.RevertCompleted: the read of the done tasks and their revert are one step.
- Consensus.ConsensusStore.RefreshConsensus: a refresh that runs alone; ConsensusRuns has its read and its upsert as two steps.
- EmailOtp.OtpStore.IssueCode: an issue call that runs alone; the lemmas of EmailOtp have its check and its insert as two steps.
- EmailOtp.OtpStore.Consume: a guess that runs alone; the lemmas of EmailOtp have its check and its update as two steps.
- TasksService.Service.Claim: a call that runs alone, without rows locked by others.
- TasksService.Service.Review: the tags it writes and the refreshes it causes are replaced by two arbitrary verdicts on agreement; ConsensusRuns has the tags and the refreshes.
- TasksService.Service.Standardise: the canonical form and the canonical map are not stored with the item.
- TasksService.Service.LinkLemma: the link record and the region attestation are not stored.
- The other handlers of the service, which are one or two statements each: their effect on tasks is a call of `Workflow`; the missing lexicon variant that aborts a transliteration is not part of this model.
- Target regions, output records, priorities set by administrators, pauses and audit logs of tasks: no effect on the properties above.
- The order of the agreed values in a consensus row, and its time of computation: agreed values are a set here.
- Numbers in a slot that are not plain decimals, which `Number()` would also read: slots are only written by the service.
- Cleaning, length and marker filters of ingestion, match keys, script and unit detection, and dataset splits: the verdict of the filters is a parameter.
- Ingestion.Corpus.InsertLeafIfNotDuplicate: the candidate query and the check are one answer, which is arbitrary for each leaf.
- Ingestion.Corpus.SpawnReviews: a review task is the number of its item, without type, version and key.
- Role checks of administrator calls beyond the one that guards a ban, and second-factor flags of tokens.
- The single-pattern replaces of the wikitext cleaner (references, categories, external links, headings, lists) and its final trim.
- Fetching robots.txt over the network, and the decision when that fails.
- The authenticator address and enrolment.
- Password hashing, token signing, mail, OAuth, storage, outbox, snapshots, statistics, lexicon and translation records, the HTTP layer and the frontend: plumbing, library behaviour or easy claims.
