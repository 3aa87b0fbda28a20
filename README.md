# Shop-house valuation dashboard: input encoding and result logic

`app_ruko.py` is a Streamlit page that estimates the market price per square
metre of a shop-house (*ruko*). Most of the page is presentation. Three pieces
of plain logic inside it are modelled here:

- **Column classification.** The trained model's ordered column names are split
  into numeric columns (shown as number inputs) and one-hot groups (shown as
  drop-downs). A column is numeric when its lower-cased name contains one of
  twelve keywords, or when it has no underscore. Every other column joins the
  group named by the text before its first underscore. `Schema.Classify` is the
  loop as written. Its result is specified by `NumericOf`, `KeysOf` and
  `MembersOf`.
- **Input encoding.** Every column starts at 0. Numeric columns take the number
  inputs' values, and each group gets a 1 at the member its drop-down points at.
  The dictionary is then read back in column order. `Encoding.BuildInput` is
  the loop as written, and `Encoding.InputVector` is its specification.
- **Result post-processing.**
  - The land-area total under the estimate (`Results`).
  - The top-ten importance ranking (`Ranking`).
  - The drop-down option labels (`Labels`).

Layout:

| file | module | contents |
|---|---|---|
| `text.dfy` | `Text` | ASCII lower-casing, substring search, `split("_")[0]`, `str.replace` |
| `sequences.dfy` | `Sequences` | order-preserving filter, subsequences, distinctness |
| `schema.dfy` | `Schema` | the classification rule and loop, with partition and order lemmas |
| `encoding.dfy` | `Encoding` | the input dictionary, number-input defaults and one-hot |
| `results.dfy` | `Results` | the derived land total |
| `ranking.dfy` | `Ranking` | the ten heaviest feature importances |
| `labels.dfy` | `Labels` | drop-down option labels |
| `optional.dfy` | `Optional` | `Option` |

The widgets are parameters of the model:

- `entered` maps each number input the user changed to its value. An untouched
  input shows its default.
- `choices` maps each drop-down the user changed to the picked index. An
  untouched drop-down shows index 0.
- The widgets' own guarantees are stated as preconditions:
  - `min_value=0.0`: `WithinMinimum`.
  - `range(len(options))`: `ChoicesInRange`.

The page keeps the groups in a Python dict, whose insertion order it relies
on. Here the groups are an association list `seq<(string, seq<string>)>`.

## Model

| member | source | states |
|---|---|---|
| Text.FirstToken | app_ruko.py:103-104 | The group key is the text before the first `_`: it has no `_`, it is a prefix of the name, and an `_` follows it when the name has one. A name without `_` is its own key. |
| Text.Lower | app_ruko.py:91 | `f.lower()` keeps the length of the name. |
| Text.LowerSpec | app_ruko.py:91 | The lower-cased name has no capitals, keeps every character that is not a capital, and lower-casing it again changes nothing. |
| Text.ReplaceAll | app_ruko.py:147 | `str.replace` never lengthens a string when the replacement is no longer than the pattern, and a string that starts with the pattern starts with the replacement. |
| Text.ContainsLower | app_ruko.py:92-94 | A keyword without capitals that occurs in a name also occurs in the lower-cased name. |
| Text.ReplaceAllAbsent | app_ruko.py:147 | `str.replace` leaves a string in which the pattern does not occur unchanged. |
| Schema.ContainsAnyExists | app_ruko.py:94 | The recursive keyword test holds exactly when some word of the list occurs in the text, as `any(k in s for k in words)` does. |
| Schema.KeywordRule | app_ruko.py:85-94 | `HasNumericKeyword` holds exactly when one of the twelve keywords occurs, as a plain substring, in the lower-cased name. |
| Schema.IsNumeric | app_ruko.py:91-99 | A name without `_` is numeric; a name that is not numeric has an `_` right after its first token. |
| Schema.KeysOf | app_ruko.py:90-105 | The group keys have no repetitions, and a key is listed exactly when some non-numeric column has it as its first token. |
| Schema.SetDefaultAppend | app_ruko.py:105 | `setdefault(key, []).append(name)`: an existing key's list gains `name` at its end and no other entry changes; a new key is added last with `[name]`. |
| Schema.Classify | app_ruko.py:81-105 | After the loop, the numeric list is exactly the numeric columns in column order. The groups are exactly the keys in first-occurrence order, each with its members in column order. An empty column list gives an empty numeric list and no groups. |
| Schema.Partition | app_ruko.py:90-105 | The numeric list and all member lists together hold every column exactly as often as the model lists it. |
| Schema.Placement | app_ruko.py:94-105 | A numeric column is in the numeric list and in no group. Any other column is not in the numeric list, its key is a group key, and it is in a group exactly when that group's key is its own. |
| Schema.GroupShape | app_ruko.py:94-105 | No group is empty and no key has an `_`. Every member is non-numeric and starts with its key followed by `_`. |
| Schema.OrderPreserved | app_ruko.py:90-105 | The numeric list and every member list are subsequences of the column list. Group keys appear in the order of their first columns. |
| Schema.KeysFirstOccurrence | app_ruko.py:90-105 | A group listed later has no column before the first column of a group listed earlier. |
| Encoding.DefaultValue | app_ruko.py:130-132 | A number input's default (60 for `luas`, else 6 for `lebar` or `row`, else 0, tested on the name as written) is never negative. |
| Encoding.NumberInputRange | app_ruko.py:130-134 | A number input holds the entered value when the user changed it and its default otherwise, and is never below 0 when every entered value respects the widget's minimum. |
| Encoding.InputVector | app_ruko.py:108-163 | Reference definition of the finished dictionary: its keys are exactly the columns, and no value is below 0 when the inputs respect the minimum. |
| Encoding.DefaultMarksNumeric | app_ruko.py:94-132 | A column with a non-zero default is numeric, so defaults never land on a one-hot column. |
| Encoding.BuildInput | app_ruko.py:108-163 | Seeding with 0, the number-input loop and the drop-down loop give a dictionary whose keys are exactly the columns and which equals `InputVector`. |
| Encoding.InputValues | app_ruko.py:108-163 | Numeric columns hold the user's value or the default, and never a value below 0. One-hot columns hold only 0 or 1. |
| Encoding.OneHot | app_ruko.py:155-163 | In every group, the member at the chosen index holds 1 and every other member holds 0. |
| Encoding.FirstOptionByDefault | app_ruko.py:155-163 | An untouched drop-down sets its group's first member to 1 and the others to 0. |
| Encoding.Row | app_ruko.py:179 | The row given to the model has one value per column, in column order, each read from the dictionary. |
| Encoding.RowOneHot | app_ruko.py:155-179 | In the row, every group has exactly one column holding 1, and all its other columns hold 0. |
| Results.AssetTotal | app_ruko.py:193 | The asset total is the estimate per square metre times the area, and is positive when both are. |
| Results.DerivedTotal | app_ruko.py:192-193 | The guard of line 192 is the definition: a total only when `luas_tanah_m2` is a key with a value above 0, then estimate × value. The contract adds that a positive estimate gives a positive total, so a missing total is never confused with a zero one. |
| Results.TotalFieldIsNumeric | app_ruko.py:130-131 | `luas_tanah_m2` is a numeric column whose input starts at 60. |
| Results.TotalOfEntry | app_ruko.py:192-193 | For any numeric area column, on an encoded request a total exists exactly when the model has that column and its number input is above 0; it is then estimate × input. |
| Results.TotalFromInput | app_ruko.py:192-193 | On an encoded request, a total exists exactly when the model has `luas_tanah_m2` and its input is above 0; it is then estimate × input. An untouched input gives estimate × 60; an input of 0 gives no total. |
| Ranking.Insert | app_ruko.py:211 | Inserting an index into a list ordered by weight keeps it ordered, and the result is the old list plus that index, as a multiset. |
| Ranking.SortByWeight | app_ruko.py:211 | The result is ordered by non-increasing weight and is a permutation of its input. |
| Ranking.TopIndices | app_ruko.py:207-211 | It keeps min(10, column count) valid indices, in non-increasing weight order. |
| Ranking.TopIndicesSpec | app_ruko.py:207-211 | The kept indices are distinct. No omitted column weighs more than any kept one. |
| Ranking.TopImportances | app_ruko.py:207-211 | It returns at most ten entries, non-increasing in weight. Each pairs a column name with the weight at the same index. |
| Ranking.Importances | app_ruko.py:206-211 | There is a ranking exactly when the model has importance weights, and it has at most ten entries. |
| Labels.OptionLabel | app_ruko.py:147 | The label as the page computes it, `c.replace(key + "_", "")`: never longer than the column name, and at least `key_` shorter when the name starts with `key_`. |
| Labels.StrippedLabel | app_ruko.py:147 | Intended label: a member starting with `key_` is `key_` followed by its label; any other name is shown unchanged. |
| Labels.OptionLabels | app_ruko.py:147-160 | The intended labels of a drop-down, with only the leading `key_` cut (not the page's replace-all labels of line 147): one per member, in member order, so each index names the member at that index. |
| Labels.StrippedLabelsDistinct | app_ruko.py:147 | Two different members of one group never share a label. |
| Labels.OptionLabelsDistinct | app_ruko.py:147 | The labels of a group's members are all different. |
| Labels.OptionLabelAgrees | app_ruko.py:147 | The page's replace-all label equals the intended label whenever `key_` does not occur again after the leading one. |
| Labels.OptionLabelsCollide | app_ruko.py:147 | `tipe_a` and `tipe_tipe_a` are both in group `tipe`, and the page labels both `a`. The intended label of the second is `tipe_a`. |

## Left out

- User interface: page layout, CSS, tabs, columns, buttons, messages and HTML (app_ruko.py:10-45, 113-175, 185-199). The widgets' values are parameters.
- Loading the model files and caching them (app_ruko.py:50-73). The column names and importance weights are inputs.
- `model.predict` and `np.exp` (app_ruko.py:182-183) are a foreign call and floating-point work. The estimate per square metre is a parameter of `Results.DerivedTotal`.
- Currency formatting with `:,.0f` (app_ruko.py:188, 194).
- The `except Exception` handler that turns any failure into a message (app_ruko.py:196-197).
- Plotting the ranking with matplotlib (app_ruko.py:213-223).
- Display beautification: `.title()`, and replacing `_` with a space and `M2`/`M` with units in labels (app_ruko.py:128, 150, 152). These only change what is shown.
- Text.Lower: lower-cases ASCII letters only. Python's `str.lower` follows Unicode case rules.
- Numbers are modelled as `real`. Float rounding in `estimate × area` is not modelled.
- Ranking.TopImportances: says nothing about the order of equal weights. pandas `sort_values` is not promised to be stable, so the model's insertion sort is one permitted order among several.
- Encoding.OneHot, Encoding.FirstOptionByDefault and Encoding.RowOneHot require distinct column names. The page builds a dict keyed by name, so a repeated column name would share one entry.
- No error behaviour beyond the code's own is modelled. The page has no check that the input matches the model's columns. Negative numbers are excluded only by the widget minimum, stated here as the precondition `WithinMinimum`. The ranking keeps at most ten entries; the 10 is fixed in the code, not a caller parameter. Every column containing an underscore and no keyword, including the `jarak_…` distance columns, is a drop-down.

## Findings

| source | as written | input that shows it | evidently intended | confidence | as-written member | corrected member |
|---|---|---|---|---|---|---|
| app_ruko.py:147 | `c.replace(prefix + "_", "")` deletes every occurrence of `prefix_`, not only the leading one | columns `tipe_a` and `tipe_tipe_a`: both fall in group `tipe`, and both are labelled `a` | cut only the leading `prefix_`, so distinct members get distinct labels | medium, not executed | Labels.OptionLabelsCollide | Labels.StrippedLabelsDistinct |

The mislabelled option still selects the right column, because the drop-down
returns an index into the member list. `Labels.OptionLabels` uses the corrected
`Labels.StrippedLabel`.
