# Prompt parsing and DPO example selection in `create_presentation_assets.py`

This project models the part of `create_presentation_assets.py` that has real logic. That file builds presentation material from DPO (direct preference optimisation) training samples. A sample has a prompt, a chosen and a rejected completion, and metadata: the predicted outcome, the actual outcome and the cumulative probability of the scenario path.

- `extract_question(prompt)` splits the prompt on `'\n'` and takes the first line that starts with `Question:`. From that line it removes every `Question:` and strips whitespace. If no line matches, it returns `"Unknown question"`.
- `extract_path(prompt)` splits the prompt the same way. It collects every line that starts with `[Depth`, stripped and in prompt order.
- `create_comparison_examples(samples, …)` partitions the samples into wrong predictions (predicted ≠ actual) and right ones. It turns the first three wrong ones, at most, into example records numbered 1, 2, 3. Each record holds the question, the scenario path, the cumulative probability, the prediction, the actual answer and the DPO action text.

The model has two modules:

- `PyStr` (`py_str.dfy`) gives the Python string built-ins these functions rely on, over `seq<char>`: `split('\n')` with its inverse `'\n'.join`, `startswith`, `replace(pat, '')`, and `strip()` built from `lstrip()` and `rstrip()`. Whitespace is the character set that Python's `str.isspace()` accepts.
- `PresentationAssets` (`presentation_assets.dfy`) has an order-preserving `Filter`, the two parsers and the example builder.

The source writes the two parsers and the example builder as loops. They are modelled as methods with loops (`ExtractQuestion`, `ExtractPath`, `CreateComparisonExamples`). Each method is proved against a specification function (`QuestionOf`, `PathOf`, `ComparisonExamples`), and lemmas about those functions prove the properties the source promises. The list comprehensions for wrong and right predictions are the pure function `Filter`. The cumulative probability is a `real` that is only copied through.

## Model

| member | source | states |
|---|---|---|
| PyStr.Split | create_presentation_assets.py:61 | `prompt.split('\n')` always gives at least one piece, and no piece contains a newline |
| PyStr.SplitCount | create_presentation_assets.py:69 | the number of lines `split('\n')` yields is the number of newlines in the prompt plus one |
| PyStr.JoinSplit | create_presentation_assets.py:61 | joining the split pieces with `'\n'` gives back the original prompt |
| PyStr.JoinPrepend | create_presentation_assets.py:61 | a character put in front of the first line ends up in front of the `'\n'`-joined text; a step of JoinSplit |
| PyStr.SplitSingle | create_presentation_assets.py:61 | a text without a newline splits into exactly one piece, itself |
| PyStr.SplitCons | create_presentation_assets.py:61 | a newline-free first line followed by `'\n'` splits off as exactly that line, then the split of the rest |
| PyStr.SplitJoin | create_presentation_assets.py:69 | splitting the `'\n'`-join of one or more newline-free lines gives back exactly those lines |
| PyStr.StartsWith | create_presentation_assets.py:63 | `line.startswith(prefix)`: the line is at least as long as the prefix and begins with it; used for both `Question:` (line 63) and `[Depth` (line 72) |
| PyStr.Remove | create_presentation_assets.py:64 | `replace('Question:', '')` never makes the text longer |
| PyStr.RemoveAbsent | create_presentation_assets.py:64 | when `Question:` does not occur in the line, `replace` leaves the line unchanged |
| PyStr.LStrip | create_presentation_assets.py:64 | `lstrip` keeps a suffix of the text, drops only whitespace, and what it keeps does not start with whitespace |
| PyStr.RStrip | create_presentation_assets.py:73 | `rstrip` keeps a prefix of the text, drops only whitespace, and what it keeps does not end with whitespace |
| PyStr.Strip | create_presentation_assets.py:64 | `strip()` is `rstrip` after `lstrip` (also line 73); its result is never longer than the input and neither starts nor ends with whitespace, and StripShape says which part of the input it keeps |
| PyStr.StripShape | create_presentation_assets.py:64 | `strip()` keeps a contiguous middle `s[i..j]`: everything before `i` and from `j` on is whitespace, and the kept part neither starts nor ends with whitespace |
| PyStr.StripIdempotent | create_presentation_assets.py:73 | stripping twice is the same as stripping once |
| PyStr.StripKeepsPrefix | create_presentation_assets.py:72-73 | a line starting with `[Depth` still starts with `[Depth` after `strip()` and loses only trailing whitespace, because `strip` cannot remove the leading `[` |
| PresentationAssets.Filter | create_presentation_assets.py:22-23 | a list comprehension with a condition keeps no more elements than its input, and every kept element satisfies the condition |
| PresentationAssets.FilterAppend | create_presentation_assets.py:71-73 | filtering a concatenation is the concatenation of the filtered parts, so appending inside the loop builds the filter of the lines seen so far |
| PresentationAssets.FilterIsSublist | create_presentation_assets.py:22-23 | what a filter keeps is an order-preserving sublist of its input |
| PresentationAssets.FilterMember | create_presentation_assets.py:22-23 | an element is in the filtered list if and only if it is in the input and satisfies the condition |
| PresentationAssets.FilterAt | create_presentation_assets.py:22-23 | an input element that satisfies the condition appears in the output at the position equal to the number of kept elements before it |
| PresentationAssets.FilterOrigin | create_presentation_assets.py:22-23 | every output element at position `k` comes from an input position that satisfies the condition and has exactly `k` kept elements before it |
| PresentationAssets.CleanQuestion | create_presentation_assets.py:64 | `line.replace('Question:', '').strip()`: never longer than the line, and neither starts nor ends with whitespace |
| PresentationAssets.FirstQuestion | create_presentation_assets.py:62-65 | the first-match search over the split lines, returning the cleaned first `Question:` line or `"Unknown question"`; pinned down by FirstQuestionMatch and NoQuestionLine |
| PresentationAssets.QuestionOf | create_presentation_assets.py:61-65 | `extract_question(prompt)` as a value: FirstQuestion over `prompt.split('\n')`; ExtractQuestion is proved to compute it, and QuestionFallback, QuestionIgnoresLaterLines and QuestionTrimmed state its properties |
| PresentationAssets.ExtractQuestion | create_presentation_assets.py:59-65 | the loop with an early return computes the first-match function `QuestionOf` |
| PresentationAssets.FirstQuestionMatch | create_presentation_assets.py:62-64 | when line `i` is the first line starting with `Question:`, the result is that line with `Question:` removed and then stripped |
| PresentationAssets.NoQuestionLine | create_presentation_assets.py:62-65 | over a list of lines none of which starts with `Question:`, the result is `"Unknown question"` |
| PresentationAssets.QuestionFallback | create_presentation_assets.py:62-65 | when no line of the prompt starts with `Question:`, `extract_question` returns `"Unknown question"` |
| PresentationAssets.QuestionIgnoresLaterLines | create_presentation_assets.py:61-64 | for a prompt made of lines with a first `Question:` line, the result depends only on that line, whatever lines follow it |
| PresentationAssets.QuestionTrimmed | create_presentation_assets.py:64-65 | the returned question never starts or ends with whitespace |
| PresentationAssets.StripAll | create_presentation_assets.py:73 | strips each collected line, one entry per line in the same order; PathOrigin and PathContains state what each entry is |
| PresentationAssets.PathOf | create_presentation_assets.py:69-74 | `extract_path(prompt)` as a value: one entry per `[Depth` line, so never more entries than split lines; ExtractPath is proved to compute it, and PathOrigin, PathContains and PathEmptyIff pin down its entries |
| PresentationAssets.ExtractPath | create_presentation_assets.py:67-74 | the append loop returns the stripped `[Depth` lines of the prompt, in order (`PathOf`) |
| PresentationAssets.PathStep | create_presentation_assets.py:71-73 | one loop iteration appends the stripped line exactly when it starts with `[Depth`, and otherwise leaves the path unchanged |
| PresentationAssets.PathOrigin | create_presentation_assets.py:69-74 | path entry `k` is a `[Depth` line of the prompt with exactly `k` such lines before it, and only its trailing whitespace removed; so it starts with `[Depth` and does not end with whitespace |
| PresentationAssets.PathContains | create_presentation_assets.py:71-73 | every `[Depth` line of the prompt appears, stripped, on the path at the position of its rank among the `[Depth` lines |
| PresentationAssets.PathEmptyIff | create_presentation_assets.py:70-74 | the path is never longer than the split lines, and it is empty if and only if no line starts with `[Depth` |
| PresentationAssets.Wrong | create_presentation_assets.py:22 | `wrong_predictions`: no longer than the samples, and every element has a predicted outcome different from its actual outcome; WrongRightPartition gives membership, order and counts |
| PresentationAssets.Right | create_presentation_assets.py:23 | `right_predictions`: no longer than the samples, and every element has equal predicted and actual outcomes; WrongRightPartition gives membership, order and counts |
| PresentationAssets.WrongRightPartition | create_presentation_assets.py:22-23 | `wrong_predictions` and `right_predictions` are order-preserving sublists of the samples, their lengths sum to the number of samples, together they hold each sample as often as the input does, and a sample is in the wrong list exactly when its predicted and actual outcomes differ |
| PresentationAssets.PartitionCount | create_presentation_assets.py:22-23 | the two lists together are a permutation of the samples (multiset equality) |
| PresentationAssets.DpoAction | create_presentation_assets.py:48 | the text `Decrease P('<rejected>') and Increase P('<chosen>')` built from the sample's rejected and chosen completions |
| PresentationAssets.MakeExample | create_presentation_assets.py:33-49 | the example record numbered `n` for a sample: its prediction differs from its answer exactly when the sample is a wrong prediction, and its cumulative probability is the sample's, unchanged; question and path are QuestionOf and PathOf of the prompt |
| PresentationAssets.ComparisonExamples | create_presentation_assets.py:32-50 | there are `min(3, len(wrong_predictions))` examples, numbered 1, 2, 3… consecutively; each reports a prediction that differs from the actual answer, and copies the cumulative probability of the matching wrong sample unchanged |
| PresentationAssets.CreateComparisonExamples | create_presentation_assets.py:18-50 | the loop over `wrong_predictions[:3]` builds exactly `ComparisonExamples(samples)`, under the fixed title and subtitle |
| PresentationAssets.ShownWrongSample | create_presentation_assets.py:32-34 | a wrong sample becomes an example if and only if fewer than three wrong samples come before it; it is then the example numbered one more than that count |
| PresentationAssets.ExampleOrigin | create_presentation_assets.py:32-50 | example `k + 1` is built from the wrong sample that has exactly `k` wrong samples before it in the input |

## Left out

- `load_data` (lines 11-16) reads JSON files from disk. That is I/O. The samples are a parameter instead.
- The `json.dump` and `print` calls in `create_comparison_examples` (lines 53-56) write a file and the console. `CreateComparisonExamples` returns the comparison record, which is what the function returns too.
- `right_predictions` (line 23) is computed but never used by the source. It is modelled as the function `Right`, with its partition lemma, and is not a local variable of `CreateComparisonExamples`.
- `create_architecture_diagram`, `create_slide_content` and `main` are not modelled. They write constant text and print, with no logic.
- `create_performance_table` is not modelled. It formats JSON statistics with floating-point percentages and writes a file.
- The JSON shape of a sample is reduced to the fields the selection reads: the prompt, chosen, rejected, and the metadata's predicted outcome, actual outcome and cumulative probability. Outcomes are strings, and the cumulative probability is a `real` that is only copied.
- Because `Sample` is a typed record, the errors the source raises on malformed JSON are not modelled:
  - a `KeyError` for any sample without `metadata.predictedOutcome` or `metadata.actualOutcome` (line 22);
  - a `KeyError` when one of the first three wrong samples lacks `prompt`, `chosen`, `rejected` or `metadata.cumulativeProbability` (lines 35-48); later samples are never read for these keys;
  - an `AttributeError` when `prompt` is not a `str` (line 61).
- PyStr.Remove: models `replace` only for a non-empty pattern. The only call passes the constant `'Question:'`. Python's behaviour for an empty pattern (insert between every character) is not modelled.
- PyStr.Remove: its contract states only that the text does not grow and that a line without `Question:` is unchanged. Python's `replace` does not promise that no `Question:` remains afterwards: `"QuestQuestion:ion:"` becomes `"Question:"`. So the model claims no such property.
- Strings are sequences of Unicode scalar values (Dafny's `char`). `IsSpace` lists the characters Python's `str.isspace()` accepts. Unicode tables are not modelled beyond that list.
- A Python `str` can hold a lone surrogate (U+D800 to U+DFFF), for example when `json.load` reads a `"\ud800"` escape in a prompt. Such prompts cannot be represented, because a Dafny `char` excludes surrogates. Nothing else changes: surrogates are neither whitespace nor `'\n'`, and they are not part of `Question:` or `[Depth`.
