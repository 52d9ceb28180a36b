# Order-preserving reassembly of a concurrent translation pipeline

The program reads lines of Simplified Chinese from standard input. It numbers them,
and a pool of worker goroutines sends each line to the Google Translate API for
Traditional Chinese. One collector goroutine gathers the results in whatever order
they come back. The driver then sorts the buffer by line number and prints it, so the
output is in input order.

This project models that reassembly in Dafny:

- `records.dfy` (`Records`): the `sourceText` and `result` records, and the error a
  result may carry.
- `translation.dfy` (`Translation`): `translate`. The reply of the service is a
  parameter (`Reply`): the request failed with no response, the request failed
  with a response (a refused redirect), the body did not decode, or it decoded to a
  list of translations. The code as written (`TranslateAsWritten`) and the
  corrected function (`Translate`) are both modelled; see Findings.
- `collection.dfy` (`Collection`): the collector goroutine. The class `Collector`
  holds `results`, `expected` and `done`. `OnResult` and `OnTotal` are the two arms
  of its `select`. The pure `Step`/`Replay` functions specify them. `Collect` is the
  loop itself, run over an arbitrary sequence of events.
- `by_line.dfy` (`ByLine`): `byLine`'s `Less` and `Swap`, and the in-place sort of
  the buffer. It also has the main lemma: a sorted buffer holding one result per
  line 0..n-1 has the result for line k at position k.
- `driver.dfy` (`Driver`): the read-and-number loop, and the arrival order of the
  workers' results. It also has `TranslateAll`, the whole program from input lines
  to output lines. The goroutines are abstracted as two things: an arbitrary
  permutation in which the workers finish, and an arbitrary point at which the total
  reaches the collector among their results.

## Model

| member | source | states |
|---|---|---|
| Translation.Translate | main.go:67-83 | The result carries the source item's line number whatever happened. It has no error exactly when the reply decoded to at least one translation, and then its text is the first translation. A failed request, with or without a response, is recorded as `GetError`. A decode failure is recorded as `DecodeError`, and an empty translation list as `NoTranslation`. In each of these cases the text is empty. |
| Translation.TranslateAsWritten | main.go:67-83 | As written, `translate` returns only for a request refused after a redirect, a decode failure or a non-empty translation list. The returned result carries the source line, and its text is empty when it carries an error. |
| Translation.GetErrorPanics | main.go:69-73 | As written, a request that fails without a response makes the worker panic instead of recording the error. That is every failure except a refused redirect. |
| Translation.EmptyTranslationsPanics | main.go:82 | As written, a reply with no translations makes the worker panic. |
| Translation.TranslateAgreesWhereNoPanic | main.go:67-83 | The code as written panics exactly on a request that failed without a response or on an empty translation list. Everywhere else it returns the same result as the corrected `Translate`. |
| Collection.Collector.constructor | main.go:112-117 | The collector starts with an empty buffer, `expected = -1` (total unknown) and not done. |
| Collection.Collector.OnResult | main.go:120-124 | A result is appended at the end of the buffer and earlier entries are unchanged. `expected` is unchanged. The collector is done exactly when the new length equals `expected`, so it can never finish before a total has arrived. |
| Collection.Collector.OnTotal | main.go:125-128 | The total is recorded in `expected` and the buffer is unchanged. The collector is done exactly when the buffer already holds that many results; a total of 0 with an empty buffer finishes at once. |
| Collection.ReplayState | main.go:115-131 | After any sequence of events, the buffer is exactly the results received, in arrival order. `expected` is the last total received, or -1 if none. The collector is done exactly when the two are equal. |
| Collection.NotDoneBeforeEnd | main.go:117-128 | Within an interleaving of n results with the single total n, no proper prefix finishes the collector. Before the total, `expected` is -1. After it, at least one result is still to come. |
| Collection.CompletesExactlyAtEnd | main.go:117-140 | Take any interleaving of n results with the single total n: total first, last or in between, and n = 0 included. The collector is done after the last event and after no earlier event, and its buffer is the n results in arrival order. |
| Collection.Collect | main.go:115-131 | The select loop receives events in order until done, and stops at the first event that completes it. Its buffer is the results received. Given n results and the total n in any order, it receives all of them, finishes, and returns all n results. |
| ByLine.LessIsStrictWeakOrder | main.go:65 | `Less` compares line numbers only and is a strict weak order: irreflexive and transitive, with incomparability transitive too. |
| ByLine.Swap | main.go:64 | `Swap(i, j)` exchanges the two entries, leaves every other entry unchanged and keeps the buffer's multiset. |
| ByLine.Sort | main.go:143 | Sorting reorders the buffer in place, through `Swap` only, into a permutation of itself. Afterwards no entry is `Less` than an earlier one. |
| ByLine.SortedPermutationIsInLineOrder | main.go:133-146 | Suppose the buffer is a permutation of a sequence whose entry k is the result for line k. Once sorted by `Less`, it equals that sequence, so position k holds the result for line k. |
| Driver.Number | main.go:133-140 | The driver numbers line i of the input as item i, with that line's text, in read order. The line numbers are strictly increasing, hence distinct, and dense in [0, total). The total sent to the collector is the number of lines. |
| Driver.ArrivalIsPermutation | main.go:96-99 | Whatever permutation of the items the workers finish in, the results delivered are exactly the items' results, each once. |
| Driver.InterleaveIsSchedule | main.go:120-140 | Wherever the total falls among the n delivered results, the collector sees n results and the single total n, with the results in delivery order. |
| Driver.SortResults | main.go:143 | `sort.Sort(results)` on the collected buffer yields a permutation of the buffer sorted by line. |
| Driver.TranslateAll | main.go:106-147 | For any input, any replies, any finishing order of the workers and any position of the total among the results: the output has one line per input line. Output line k is the translation of input line k by the corrected `translate` (see Findings), or empty if that line failed. |

## Left out

- The HTTP request, URL construction and JSON decoding in `translate` (main.go:69-81) are network I/O and library code. Their outcome is the `Reply` parameter, one per line.
- The rate limiter (main.go:91, 98) is a library whose behaviour is about wall-clock time, so the rate bound is not modelled.
- Goroutines, channels, `sync.WaitGroup` and the pool of 20 workers (main.go:86-104, 107-113, 139-141) are not modelled as concurrency. What remains of them is an arbitrary finishing order of the workers (a permutation of the items) and an arbitrary position of the total among the results. The concurrency bound is therefore not modelled.
- Reading `GOOGLE_API_KEY` and exiting on its absence (main.go:87-90), scanning standard input (main.go:134-135) and printing (main.go:144-146) are I/O. The input is the `lines` parameter and the printed lines are the `output` result.
- The internals of `sort.Sort` are not modelled. `Sort` is an insertion sort built from `Less` and `Swap` that has the same contract: a permutation ordered by `Less`. `Len` is the array's length.
- Collection.Collect: the goroutine as written blocks forever when its events run out before it is done. The model returns instead, with `finished` false.
- Output of a failed line: it is printed as its empty text, as the code does, not with a distinguishing marker.

## Findings

| source | as written | input that shows it | evidently intended | confidence | as-written member | corrected member |
|---|---|---|---|---|---|---|
| main.go:69-73 | `defer resp.Body.Close()` is evaluated before `err` is checked. When `http.Get` fails without a response, `resp` is nil, so evaluating the deferred call's receiver dereferences nil. The worker panics and the whole process dies. The error branch at lines 71-73 runs only when a refused redirect returns a response together with the error. | any line whose request fails without a response, e.g. with no network connection | the error is stored in that line's result and the other lines carry on | high; not executed | Translation.GetErrorPanics | Translation.Translate |
| main.go:82 | `j.Data.Translations[0]` is indexed without checking that the list is non-empty, so the worker panics and the process dies. | a reply body of `{"data": {"translations": []}}` or `{}` | the missing translation is recorded as that line's error | high; not executed | Translation.EmptyTranslationsPanics | Translation.Translate |

The rest of the model (`Driver.TranslateAll`) uses the corrected `Translate`.
