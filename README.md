# Alice's side of a BB84-style key distribution, modelled in Dafny

This project models the classical post-processing that Alice runs in qkd-strap
(`src/app_alice.py`) once the entangled pairs have been measured. The copy at
`exp2/input/app_alice.py` is byte-for-byte the same file, so every citation
below points at `src/`.

The model covers five pieces:

- **Framed messages on the classical socket.** Messages are sent with an
  `"EOF"` suffix. On receipt a chunk is split at `"EOF"`, its last piece is
  dropped, and any extra messages wait in a module-level buffer
  (`recv_single_msg`, `send_single_msg`). `sendClassicalAssured` sends and
  then discards messages until an `"ACK"` arrives. `recvClassicalAssured`
  acknowledges a message it receives.
  - Module `Framing` defines the splitting and framing on strings.
  - Module `FramedChannel` defines the receive buffer. It is a pure function
    on a `Link` (buffer plus the scripted chunks the socket will return), and
    a `Channel` class whose fields the methods update in place.
- **The per-pair record `PairInfo`** and the loop in `main` that builds the
  list (module `Pairs`).
- **Basis reconciliation, `filter_bases`** (module `Reconciliation`). It writes
  `same_basis` into each pair of an array in place. It stops with a
  `Desync` error at the first index assertion that fails, and the writes made
  before that point remain.
- **Error estimation, `estimate_error_rate`** (module `ErrorEstimation`):
  - the same-basis pool;
  - a test set, where `random.sample` is modelled as any choice of distinct
    pool elements of the right size;
  - marking the test set;
  - comparing outcomes with Bob's reply, with `assert i1 == i2` on every
    zipped position;
  - the rate `num_error / num_test_bits`.
- **The tail of `main`** (modules `KeyExtraction` and `Pipeline`):
  - `num_test_bits`;
  - the raw key and `secret_key`;
  - the table;
  - the basis, comparison and difference counts;
  - the QBER, which falls back to 1 when there are no comparisons;
  - `extract_key`;
  - `PostProcess`, which runs the stages in order on an array.

Python's `/` on counts becomes the `Ratio` datatype, not a float. Python
exceptions become `Result` errors:
- a failed `assert` becomes `Desync`;
- `random.sample` with a negative size becomes `NegativeSample`;
- division by zero becomes `ZeroDivision`;
- summing an unset `None` flag becomes `Unset`.

The socket is a parameter. It is the list of chunks that `socket.recv()`
would return, and the error `NoData` stands for a socket that has nothing
more to deliver. Bob's reply to the bases message is a parameter, since his
bases do not depend on what Alice sends. His reply to the test indices is a
function `reply` of the indices Alice sends (lines 129-132), so the reply
always answers the test set actually chosen. `Pipeline.HonestRun` runs the
whole tail against an honest Bob, who answers with his own bases and, for
each requested index, his own outcome.

Two notes on the code as written:
- The error rate divides by the requested `num_test_bits`, not by the size of
  the test set. When fewer pairs share a basis than `num_test_bits`, the
  rate is smaller than the share of mismatches. The model follows the code
  (`EstimateErrorRate`, `PostProcess`).
- The comment on `diff_outcome_count` says it counts equal outcomes (line 307).
  The code subtracts the agreeing tests from the comparisons, so it counts the
  differing ones. The model follows the code (`QberInUnitInterval`).

## Model

| member | source | states |
|---|---|---|
| Framing.Split | src/app_alice.py:24 | `str.split("EOF")`: putting the pieces back together with `"EOF"` gives the input; no piece contains `"EOF"`; there is one piece exactly when the input has no delimiter |
| Framing.ContainsEOFIsOccurrence | src/app_alice.py:24 | the delimiter test used throughout is Python's substring `in`: it holds exactly when `"EOF"` starts at some position |
| Framing.FrameRoundTrip | src/app_alice.py:33 | `Frame` is `msg + EOF`; a delimiter-free message, once framed, is received back as exactly that one message |
| Framing.FrameAll | src/app_alice.py:33 | repeated `send_single_msg` calls put their frames back to back; its contract is stated by `FrameAllIsJoin` and `MessagesOfFrames` |
| Framing.Messages | src/app_alice.py:24 | `split(EOF)[:-1]`: every message is free of the delimiter; the list is empty exactly when the chunk has no `"EOF"` |
| Framing.SplitFrame | src/app_alice.py:24-33 | splitting a framed message followed by more text gives that message, then the split of the rest |
| Framing.SplitJoin | src/app_alice.py:24 | joining delimiter-free pieces with `"EOF"` and splitting again returns the pieces |
| Framing.FrameAllIsJoin | src/app_alice.py:33 | sending messages one after another with `msg + EOF` produces their `"EOF"`-join plus the tail |
| Framing.MessagesOfFrames | src/app_alice.py:24-33 | receiving a chunk made of framed messages, plus a delimiter-free tail, yields exactly those messages in order |
| FramedChannel.Recv | src/app_alice.py:19-28 | a buffered message is returned first and removed; otherwise the next chunk is read, and the receive succeeds exactly when that chunk contains `"EOF"`, returning its first message and buffering the rest in order; a chunk without `"EOF"` fails (Python's IndexError) and buffers nothing; an exhausted socket gives NoData and changes nothing |
| FramedChannel.RecvMany | src/app_alice.py:19-28 | n successful receives give n messages |
| FramedChannel.ReplayBuffer | src/app_alice.py:21-22 | receiving n messages first drains the buffer, then continues on the socket exactly as with an empty buffer |
| FramedChannel.ReceiveInOrder | src/app_alice.py:19-33 | when the peer's chunks are batches of framed messages, receiving empties buffer and socket and returns the buffered messages followed by every batch, in order |
| FramedChannel.ReceiveFromSocket | src/app_alice.py:19-33 | the same with an empty buffer: the chunks alone yield every batch in order and are used up |
| FramedChannel.AwaitAck | src/app_alice.py:39-40 | the `while recv_single_msg(socket) != "ACK"` loop only consumes input, and it fails with NoData only after buffer and socket are both used up |
| FramedChannel.AwaitAckDiscardsUntilAck | src/app_alice.py:39-40 | the ACK loop ends with success at the first `"ACK"` it receives, having consumed exactly the messages up to and including it |
| FramedChannel.AwaitAckWithoutAck | src/app_alice.py:39-40 | when no `"ACK"` arrives before the socket is exhausted, the loop consumes everything and fails with NoData |
| FramedChannel.AssuredSendOnFramedStream | src/app_alice.py:36-40 | on a framed stream that carries an `"ACK"`, the ACK loop succeeds |
| FramedChannel.Channel.constructor | src/app_alice.py:14 | a fresh channel has an empty buffer, has sent nothing, and reads the given script |
| FramedChannel.Channel.RecvSingleMsg | src/app_alice.py:19-28 | updates the buffer and socket as `Recv` prescribes and returns its result; sends nothing |
| FramedChannel.Channel.SendSingleMsg | src/app_alice.py:31-33 | appends `msg + "EOF"` to the sent stream; the receive side is unchanged |
| FramedChannel.Channel.SendClassicalAssured | src/app_alice.py:36-40 | sends the framed data once, then loops until `"ACK"`; the result and new receive state are those of `AwaitAck` |
| FramedChannel.Channel.RecvClassicalAssured | src/app_alice.py:43-47 | receives one message and sends a framed `"ACK"` exactly when the receive succeeded |
| Pairs.BuildPairs | src/app_alice.py:162-226 | one record per measured bit, indexed by position, with Alice's basis and outcome and every flag unset |
| Pairs.AlignedPrefix | src/app_alice.py:98-99 | the number of leading zipped positions whose indices agree; it is at most both lengths, and any shorter count marks a failing position |
| Pairs.AlignedPrefixIsFirstMismatch | src/app_alice.py:98-141 | the first failing position (or the shorter length) is the aligned prefix |
| Reconciliation.LocalBases | src/app_alice.py:88 | `bases` is the list of `(i, basis)` for every pair |
| Reconciliation.Reconcile | src/app_alice.py:98-100 | the first k pairs get `same_basis` equal to the basis comparison with Bob's list; the rest and every other field are unchanged |
| Reconciliation.FilterBases | src/app_alice.py:86-102 | the array ends up reconciled up to the aligned prefix; it succeeds exactly when the zip is fully aligned, and otherwise reports the first index pair that failed |
| Reconciliation.PeersAgree | src/app_alice.py:98-100 | both parties, each reconciling against the other's list, reach the same `same_basis` flags (basis equality is symmetric, so this adds nothing beyond `Reconcile`) |
| Reconciliation.ReconcileExample | src/app_alice.py:98-100 | bases Z,X,Z against Bob's Z,Z,Z mark pairs 0 and 2 as same-basis and pair 1 as not |
| ErrorEstimation.Pool | src/app_alice.py:107 | with indices equal to positions, the pool is increasing and holds exactly the same-basis positions |
| ErrorEstimation.IsSample | src/app_alice.py:110-112 | what `random.sample(pool, size)` may return: `size` distinct elements of the pool, in any order (a definition, no contract) |
| ErrorEstimation.Marked | src/app_alice.py:115-118 | every pair's `test_outcome` becomes whether its index is in the test set; other fields are unchanged |
| ErrorEstimation.LocalOutcomes | src/app_alice.py:121 | `test_outcomes` lists `(i, outcome)` for each test index, in test-set order |
| ErrorEstimation.Compared | src/app_alice.py:140-146 | only `same_outcome` changes, and only at compared indices |
| ErrorEstimation.Mismatches | src/app_alice.py:139-143 | `num_error` never exceeds the number of compared positions, and it is 0 exactly when every compared outcome equals Bob's |
| ErrorEstimation.ComparedAt | src/app_alice.py:140-146 | each compared test pair ends up holding whether its outcome equals Bob's |
| ErrorEstimation.ComparedOnlyTested | src/app_alice.py:140-146 | a pair outside the test set keeps its `same_outcome` |
| ErrorEstimation.TestImpliesSameBasis | src/app_alice.py:107-118 | after marking, a pair is tested exactly when it is in the test set, and every tested pair has matching bases |
| ErrorEstimation.SampleInRange | src/app_alice.py:107-112 | every sampled index is a valid position |
| ErrorEstimation.LocalOutcomesDistinct | src/app_alice.py:110-121 | the outcome list has distinct indices, because `random.sample` draws without replacement |
| ErrorEstimation.SampleExists | src/app_alice.py:110-112 | a sample of size `min(num_test_bits, len(pool))` always exists |
| ErrorEstimation.Rate | src/app_alice.py:148 | `num_error / num_test_bits` fails exactly when `num_test_bits` is 0 and is otherwise that ratio |
| ErrorEstimation.ChooseTestSet | src/app_alice.py:110-112 | returns distinct pool elements, as many as the smaller of `num_test_bits` and the pool size |
| ErrorEstimation.MarkTestSet | src/app_alice.py:115-118 | the array becomes `Marked` of its old contents |
| ErrorEstimation.CompareTestOutcomes | src/app_alice.py:139-146 | the array becomes `Compared` of its old contents up to the aligned prefix, and `num_error` is the mismatch count there |
| ErrorEstimation.EstimateErrorRate | src/app_alice.py:105-148 | a negative size fails unchanged; otherwise the test set is a sample of size `min(num_test_bits, len(pool))` of the same-basis pool, the outcome list is `(i, outcome)` per test index, the pairs are marked then compared against Bob's reply to that test set, and the result is Desync at the first bad index or the mismatch ratio over `num_test_bits` |
| KeyExtraction.NumTestBits | src/app_alice.py:188 | `max(int(num_bits/4), 1)`: at least 1, a quarter (rounded toward zero) from 8 bits on, and 1 below 8 |
| KeyExtraction.ExtractKey | src/app_alice.py:151-152 | the result is a bit |
| KeyExtraction.InnerProduct | src/app_alice.py:152 | on bit strings the zipped sum of products counts where both bits are 1 |
| KeyExtraction.ExtractKeyIsParity | src/app_alice.py:151-152 | `extract_key` is the parity of the common ones of x and r |
| KeyExtraction.Count | src/app_alice.py:264-278 | a count over the pairs is at most their number |
| KeyExtraction.RawKey | src/app_alice.py:245 | the raw key has one bit per untested same-basis pair |
| KeyExtraction.KeyPositions | src/app_alice.py:245 | the increasing list of positions of untested same-basis pairs |
| KeyExtraction.RawKeySelects | src/app_alice.py:245 | the raw key holds the outcomes of exactly the untested same-basis pairs, in list order |
| KeyExtraction.RawKeyLength | src/app_alice.py:245-273 | the raw key has `same_basis_count - outcome_comparison_count` bits, and comparisons never exceed same-basis pairs |
| KeyExtraction.SecretKey | src/app_alice.py:297 | `raw_key[0:key_length]` is a prefix of the raw key, of length `min(key_length, len)` for non-negative lengths, with Python's negative-stop rule otherwise |
| KeyExtraction.TableRow | src/app_alice.py:256-261 | the row holds index, `"X"` for basis 1 or `"Z"` otherwise, `same_basis`, outcome, and `same_outcome` for tested pairs or `"-"` |
| KeyExtraction.Table | src/app_alice.py:253-261 | one row per pair, in order |
| KeyExtraction.BuildTable | src/app_alice.py:253-261 | the loop builds `Table` |
| KeyExtraction.Qber | src/app_alice.py:279-282 | QBER is 1 when nothing was compared, else `diff / comparisons` |
| KeyExtraction.Summable | src/app_alice.py:268-278 | the condition under which none of the three sums meets `None` (Python would raise TypeError); a definition, no contract |
| KeyExtraction.SumBases | src/app_alice.py:264 | `sum(pair.basis ...)`; with bases 0 or 1 it is the number of X pairs |
| KeyExtraction.MakeReport | src/app_alice.py:244-316 | fails exactly when a sum would meet an unset flag; on success each field is its defining count (`raw_key`, table, basis sum, same-basis, compared, compared minus agreeing, QBER), the X and Z counts add up to `num_bits`, the raw key length is same-basis minus compared, `secret_key` is the prefix of the raw key, and the table has one row per pair |
| KeyExtraction.BasisCounts | src/app_alice.py:264-265 | with bases 0 or 1, `x_basis_count` counts X pairs and `z_basis_count` counts Z pairs |
| KeyExtraction.BinaryBases | src/app_alice.py:264-265 | with bases 0 or 1, the X and Z counts together cover every pair |
| KeyExtraction.ComparedSplits | src/app_alice.py:271-278 | the compared pairs split into the agreeing ones and the disagreeing ones |
| KeyExtraction.AgreeingWithinCompared | src/app_alice.py:271-278 | agreeing tests never outnumber comparisons |
| KeyExtraction.QberInUnitInterval | src/app_alice.py:271-282 | `diff_outcome_count` is the number of disagreeing tests, lies between 0 and the comparison count, and QBER is a ratio in [0, 1] with its fallback of 1 |
| Pipeline.EstimatedShape | src/app_alice.py:105-146 | estimation only sets the test and comparison flags, marks exactly the test set, and tests only same-basis pairs |
| Pipeline.EstimatedComparisons | src/app_alice.py:271-273 | `outcome_comparison_count` equals the size of the test set |
| Pipeline.EstimatedResults | src/app_alice.py:140-146 | each compared test pair holds the result of its own comparison |
| Pipeline.EstimatedComplete | src/app_alice.py:140-278 | every tested pair has a comparison result exactly when Bob sent an outcome for every test index |
| Pipeline.EstimatedMismatches | src/app_alice.py:139-278 | with a full reply, `diff_outcome_count` equals `num_error` |
| Pipeline.CountAtCovers | src/app_alice.py:271-278 | a count over the pairs equals the count over any index list covering the counted pairs |
| Pipeline.ThroughTest | src/app_alice.py:271-278 | a count over pairs that only occur in the test set equals the count along the test set |
| Pipeline.RunShape | src/app_alice.py:218-246 | after both stages each pair keeps its measurement, shares Bob's basis exactly when its flag says so, is tested exactly when in the test set, and is a key pair exactly when bases agree and it is untested |
| Pipeline.RunSucceeds | src/app_alice.py:236-282 | the report is produced exactly when Bob's basis list covers every pair and his outcome list covers every test index |
| Pipeline.RunCounts | src/app_alice.py:139-282 | on success there are as many comparisons as test indices, the whole test set passes the index assertions, there are as many differences as `num_error`, and QBER lies in [0, 1] |
| Pipeline.RunResults | src/app_alice.py:140-146 | with a full reply every test pair records whether Alice's bit equals the one Bob sent for it, and every other pair records nothing |
| Pipeline.PoolUnchanged | src/app_alice.py:107 | the same-basis pool depends only on indices and `same_basis` flags |
| Pipeline.OkRun | src/app_alice.py:188-282 | when both replies line up and are complete, the report is produced and every fact of a successful run holds |
| Pipeline.NotAligned | src/app_alice.py:98-99 | a failed reconciliation means Bob's list does not index all pairs in order |
| Pipeline.PostProcess | src/app_alice.py:188-297 | the outcome list is `(i, bit_flips[i])` per test index; success exactly when Bob's replies line up with Alice's indices and cover every pair and test index; then every pair keeps its measurement and has `same_basis` exactly when the bases agree, the test set is a sample of size `min(num_test_bits, len(pool))` of the same-basis pairs, each test pair records whether Alice's bit equals Bob's reply, `diff_outcome_count` is the mismatch count of the outcome list against that reply, `error_rate` is it over `num_test_bits`, and QBER lies in [0, 1] |
| Pipeline.BobAnswer | src/app_alice.py:129-132 | an honest reply to test indices: Bob's own outcome at each requested index, under that index |
| Pipeline.HonestRun | src/app_alice.py:188-297 | against an honest Bob every assertion passes and the report is produced; the same-basis flags are exactly where the bases agree, each test pair records whether the two bits agree, and no error is counted exactly when every tested bit agrees |

## Left out

- `distribute_bb92_states` (lines 50-83): EPR pair creation and measurement run on a quantum simulator. Its outputs, the measured bits and chosen bases, are inputs of `PostProcess`.
- `h` and `key_rate_potential` (lines 155-159, 286): binary entropy is floating point and is not modelled.
- `json.dumps`/`json.loads` in the assured send and receive: payloads are modelled as the already-encoded strings.
- `send_structured`/`recv_structured` and `StructuredMessage`: the messages Alice sends are the `bases`, test indices and test outcomes the operations return. Bob's replies are parameters: a list for the bases and a function of the test indices for the outcomes.
- Bob's own program is not part of this model. `Pipeline.BobAnswer` states what an honest reply is, and nothing more about Bob is assumed.
- The `ALL_MEASURED` check (lines 229-232): it is a read from the socket that raises on mismatch, and it sits before the modelled stages.
- Logging is left out, as is the socket, EPR socket and connection setup (lines 190-208).
- `random.randint` and `random.sample`: the bases are inputs; the sample is any set the `IsSample` predicate admits.
- Blocking `socket.recv()`: a socket that never delivers again is modelled as an error (`NoData`), so the ACK loop's liveness, waiting forever, is not modelled.
- KeyExtraction.NumTestBits: `int(num_bits / 4)` goes through a float in Python. The model uses exact truncation toward zero, which differs only for integers too large for a float's precision.
- Process-level concurrency between Alice and Bob is not modelled. The two sides meet only through the scripted chunks and the reply parameters.
