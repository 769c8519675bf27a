# RAG evaluation: judge prompts and result-file loading

This project models two pieces of a retrieval-augmented generation evaluation
pipeline and proves properties of them in Dafny.

- **The universal judge** (`eval_utils/metrics_generation.py`). It holds one
  structured-output client. For a (query, context, answer) triple it builds one
  of two fixed prompts and hands that prompt to the client, asking for either a
  `FaithfulnessResult` (a score and a reasoning string) or an `AbstentionResult`
  (a refusal flag and a reasoning string). The faithfulness prompt embeds the
  context clipped to its first 10,000 characters and the whole answer; the query
  is accepted and ignored. The abstention prompt embeds the whole query, the
  context clipped to its first 5,000 characters, and the whole answer. Whatever
  the client returns, a verdict or an error, is returned unchanged.
  `metrics_generation.dfy` (module `MetricsGeneration`) models this with pure
  functions. The client is a value holding one opaque function per schema, from
  the prompt to `Result<verdict, GenerationError>`. The judge is an immutable
  datatype whose only field is that client. It is set when the judge is built
  and evaluation cannot change it.
- **The result loader** (`io_utils/csv_concater.py`, `load_and_combine_results`).
  It keeps the listed files whose names contain a keyword and end in `.csv`,
  and tags every row of each file with a model name: the part of the file name
  before the first occurrence of the keyword. It appends files ending in
  `_pos.csv` to a positive list and files ending in `_neg.csv` to a negative
  list, skips files that cannot be read, and concatenates the two lists. The
  third table is the positive rows followed by the negative rows.
  `csv_concater.dfy` (module `CsvConcater`) models the directory as
  `Missing` or a listing of `(name, Option<rows>)` pairs, where `None` is a
  failed read. A row is a `map<string, string>` and a frame is a sequence of
  rows. The loop is the method `LoadAndCombineResults`, which is proved equal
  to the specification function `Load`. The lemmas about `Load` state the
  filtering, routing, tagging, skipping and ordering properties.
  `pystr.dfy` (module `PyStr`) gives the three Python string operations the
  loader uses: `in`, `endswith` and `split(sep)[0]`. `wrappers.dfy` holds
  `Option` and `Result`.

An empty keyword is modelled as the source behaves, not excluded by a
precondition. Every name contains `""`, so every `.csv` file is selected, and
then `file.split("")` raises `ValueError` at the first selected file. That call
sits outside the `try`. In the model this is the result
`Failure(EmptySeparator)`, and `EmptyKeywordRaises` states exactly when it
happens.

The score field's description string (`eval_utils/metrics_generation.py:7`)
reads "0.0 to 1.0", but nothing checks it: `score` is a plain float with no
validator. `FaithfulnessResult.score` is therefore an unconstrained `real`,
and `FaithfulnessScoreNotClamped` shows that every score passes through.

## Model

| member | source | states |
|---|---|---|
| `MetricsGeneration.NewJudge` | eval_utils/metrics_generation.py:17-21 | the judge is built exactly when the client for (provider, model name) can be resolved; on success it holds that client; on failure the resolution error propagates unchanged |
| `MetricsGeneration.Clip` | eval_utils/metrics_generation.py:27 | `s[:n]`: a prefix of `s` of length min(\|s\|, n), and `s` itself when \|s\| <= n (no clipping below the limit) |
| `MetricsGeneration.EvaluateFaithfulness` | eval_utils/metrics_generation.py:24-32 | the result is exactly the client's faithfulness output for the faithfulness prompt, success or error, with no post-processing, clamping or catching |
| `MetricsGeneration.EvaluateAbstention` | eval_utils/metrics_generation.py:34-43 | the result is exactly the client's abstention output for the abstention prompt, success or error, with no post-processing or catching |
| `MetricsGeneration.FaithfulnessPromptLayout` | eval_utils/metrics_generation.py:25-31 | the prompt is the fixed header, then `context[..min(\|context\|, 10000)]`, then the fixed `Generated Answer` text, then the whole answer, then the fixed footer, each part at a stated position; its length is fixed overhead + clipped context + answer |
| `MetricsGeneration.FaithfulnessPromptSameAnswer` | eval_utils/metrics_generation.py:24-31 | for one answer, two calls give the same prompt if and only if their contexts agree on the first 10,000 characters, whatever the two queries are (the query is not used) |
| `MetricsGeneration.FaithfulnessPromptSameContext` | eval_utils/metrics_generation.py:27-28 | for one context, two calls give the same prompt if and only if the answers are equal, whatever the queries are: the answer is embedded in full |
| `MetricsGeneration.FaithfulnessPromptIgnoresBeyondLimit` | eval_utils/metrics_generation.py:27 | characters appended after the first 10,000 of the context never change the faithfulness prompt |
| `MetricsGeneration.FaithfulnessPromptAmbiguous` | eval_utils/metrics_generation.py:27-28 | the quotes do not delimit the embedded text: two different (context, answer) pairs can give the same faithfulness prompt |
| `MetricsGeneration.AbstentionPromptLayout` | eval_utils/metrics_generation.py:35-42 | the prompt is the fixed header, the whole query, the fixed `Context (Irrelevant)` text, `context[..min(\|context\|, 5000)]`, the fixed `Generated Answer` text, the whole answer and the fixed footer, each part at a stated position; its length is fixed overhead + query + clipped context + answer |
| `MetricsGeneration.AbstentionPromptSameContextAnswer` | eval_utils/metrics_generation.py:37 | for one context and answer, two calls give the same prompt if and only if the queries are equal: the query is embedded verbatim |
| `MetricsGeneration.AbstentionPromptSameQueryAnswer` | eval_utils/metrics_generation.py:38 | for one query and answer, two calls give the same prompt if and only if the contexts agree on the first 5,000 characters |
| `MetricsGeneration.AbstentionPromptSameQueryContext` | eval_utils/metrics_generation.py:39 | for one query and context, two calls give the same prompt if and only if the answers are equal: the answer is embedded in full |
| `MetricsGeneration.AbstentionPromptIgnoresBeyondLimit` | eval_utils/metrics_generation.py:38 | characters at index 5,000 and beyond never change the abstention prompt |
| `MetricsGeneration.FaithfulnessScoreNotClamped` | eval_utils/metrics_generation.py:6-8 | for every real score, in [0, 1] or not, and every reasoning, some client makes `evaluate_faithfulness` return exactly that verdict: no range check or clamping |
| `PyStr.Contains` | io_utils/csv_concater.py:24 | `keyword in f` holds if and only if the keyword occurs in the name at some index |
| `PyStr.EndsWith` | io_utils/csv_concater.py:24 | `s.endswith(suffix)` holds if and only if `s` is some string followed by `suffix` (used for `.csv`, `_pos.csv` and `_neg.csv`) |
| `PyStr.ContainsEmpty` | io_utils/csv_concater.py:24 | the empty keyword is contained in every name |
| `PyStr.PrefixBefore` | io_utils/csv_concater.py:32 | when the keyword occurs in the name, the model name is a prefix of the name, the keyword occurs right after it, and it occurs nowhere earlier; otherwise the whole name |
| `PyStr.SplitHead` | io_utils/csv_concater.py:32 | `split(keyword)[0]` raises exactly when the keyword is empty; otherwise it is the part before the first occurrence |
| `CsvConcater.SelectFiles` | io_utils/csv_concater.py:24 | a listed file is selected if and only if its name contains the keyword and ends with `.csv` |
| `CsvConcater.SelectFilesAppend` | io_utils/csv_concater.py:24 | the filter distributes over concatenation of listings, so selected files keep listing order |
| `CsvConcater.RouteBySuffix` | io_utils/csv_concater.py:40-43 | a name goes to the positive list if and only if it ends with `_pos.csv`, to the negative list if and only if it ends with `_neg.csv`, and never to both |
| `CsvConcater.Tag` | io_utils/csv_concater.py:37 | every row gets the `model` column set to the model name; no other column of any row changes and the row count is kept |
| `CsvConcater.ConcatAppend` | io_utils/csv_concater.py:48-52 | `pd.concat` of two lists of frames joined end to end gives the rows of the first list followed by those of the second |
| `CsvConcater.Load` | io_utils/csv_concater.py:17-52 | a missing directory gives three empty tables; the call raises only for an empty keyword; `all` is `pos` followed by `neg`, so \|all\| = \|pos\| + \|neg\| and `all` is empty if and only if both are |
| `CsvConcater.LoadAndCombineResults` | io_utils/csv_concater.py:5-54 | the loop (filter, split, read or skip, tag, route, concatenate) returns exactly `Load`'s result or error |
| `CsvConcater.EmptyKeywordRaises` | io_utils/csv_concater.py:24-35 | with an empty keyword the call raises if and only if some listed name ends with `.csv` |
| `CsvConcater.LoadSingleFile` | io_utils/csv_concater.py:30-45 | one file adds its tagged rows to `pos` only if selected, readable and ending in `_pos.csv`; to `neg` only if selected, readable and ending in `_neg.csv`; any other file adds nothing |
| `CsvConcater.LoadAppend` | io_utils/csv_concater.py:30-52 | for a listing split in two, `pos` is the first part's positive rows followed by the second part's, and likewise `neg` |
| `CsvConcater.LoadSkipsUnreadable` | io_utils/csv_concater.py:35-45 | an unreadable file anywhere in the listing leaves all three tables as if it were not listed |
| `CsvConcater.RoutedRowsTagged` | io_utils/csv_concater.py:32-43 | every row in a routed list carries `model` equal to the part before the keyword of the name of a file routed to that list |
| `CsvConcater.LoadRowsTagged` | io_utils/csv_concater.py:30-43 | every row of `pos` (of `neg`) carries `model` equal to the model name of a selected file ending in `_pos.csv` (in `_neg.csv`) |

## Left out

- The language-model provider behind `generate_structured` and its Pydantic validation are foreign calls. Each schema's generation is an opaque total function from prompt to verdict or error, and resolving a provider is the `connect` parameter of `NewJudge`.
- Any range for `FaithfulnessResult.score` and any non-emptiness for `reasoning`: the code enforces neither.
- `os.path.exists`, `os.listdir`, `os.path.join` and `pd.read_csv` are replaced by the `Directory` value. The directory path is not modelled, and reading a file is the `Option` stored with its name.
- Filesystem and pandas details: column alignment and missing-value fill in `pd.concat`, the frame index (`ignore_index`), column types (every cell is text), the column set of a frame with no rows, and exceptions inside the `try` other than a failed read.
- The warning and error `print`s are output only and are not modelled.
- `main.py` is configuration loading, console input and output, and calls into the retrieval and generation modules. It has no logic of its own here, and those modules are not part of this model.
