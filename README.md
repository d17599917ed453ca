# FaydaFlow feature-row builder, modelled in Dafny

FaydaFlow is a one-page Streamlit app. It predicts the demand for an
agricultural public service from six drop-down answers and five slider values.
Its only logic of its own is the step that turns those answers into the one-row
table the trained regression model expects:

1. `input_dict` (app.py:24-36). The slider values go under five fixed
   column names. Each drop-down answer `v` of field `f` becomes the one-hot key
   `"{f}_{v}"`, which holds 1.
2. `row` (app.py:39-40). For every column name in the model's
   `feature_names_in_`, in that order, the row takes `input_dict.get(col, 0)`.
   Missing columns are filled with 0. Keys the model does not expect are dropped.

The model is functional, as the source is: datatypes, functions and lemmas.
There are two modules:

- `PyDict` (pydict.dfy) holds the Python semantics the builder relies on:
  - a dict literal, where the last value written for a key wins (`ToDict`);
  - `dict.get` with a default (`Get`);
  - the key order of a dict comprehension, where a repeated key keeps its
    first position (`Columns`);
  - reading one column of a one-row table (`RowGet`).
- `FeatureRow` (feature_row.dfy) holds the form's answers (`Selection`), the
  widget menus and ranges, `input_dict` (`Entries`, `InputDict`, `Lookup`), the
  row (`BuildRow`) and the properties proved about them.

The model's expected column list is a parameter (`features: seq<string>`).
Repeated names in it are handled, not excluded: they collapse to one cell, as
in the Python dict comprehension.

What is proved:

- **Key distinctness.** The literal's eleven keys are pairwise distinct for
  every answer, because no two share their first two characters. So
  `input_dict` always has exactly 11 entries.
- **Schema alignment.** The row's names are exactly the expected columns:
  none added, none lost, and in the expected order when no name repeats. With
  repeated names, each name gives one cell, and the cells follow the order of
  each name's first occurrence (`ColumnsOrder`).
- **Numeric pass-through.** Each slider's column holds the slider's value.
- **One-hot correctness.** A drop-down's column for the chosen answer holds 1,
  and its columns for other answers hold 0.
- **Every other column is 0.**
- **Unexpected keys are dropped** without error.
- **Column independence.** Expecting one more column appends at most one cell
  and changes no other.
- **Values and ranges.** Every value is 0, 1 or a slider value. Under the
  slider ranges, each slider's cell lies within its range.
- **Worked examples.** The full example row, an unseen region and a schema
  without `gender_Male` are proved as lemmas.

Design notes on the code:

- The expected columns are the ordered `feature_names_in_`, so the row's
  cells follow that order. A repeated name keeps its first position.
- No slider column name can equal a one-hot key (`EntryKeysDistinct`). `ToDict`
  keeps Python's last-write-wins rule all the same.
- Answers and slider values are not validated: any strings and integers are
  accepted. The menus and slider ranges are predicates (`OnMenus`,
  `InSliderRanges`) that only the range lemma assumes.

## Model

| member | source | states |
|---|---|---|
| `FeatureRow.Initial` | app.py:11-21 | the page's initial answers lie on the menus and within the slider ranges; each drop-down starts at its menu's first option, and the soil slider, which has no default, at its minimum |
| `FeatureRow.OneHotKey` | app.py:30-35 | the f-string key is the field name, an underscore, then the answer, so field and answer can be read back from it |
| `PyDict.ToDictKeys` | app.py:24-36 | the keys of a dict literal are exactly the keys written in it |
| `PyDict.ToDictLastWrite` | app.py:24-36 | a key of a dict literal holds the value of its last entry |
| `FeatureRow.EntryKeysDistinct` | app.py:24-36 | the eleven keys of `input_dict` are pairwise distinct for every answer |
| `FeatureRow.Entries` | app.py:24-36 | the eleven entries of the `input_dict` literal in the order written; their keys are proved distinct by `EntryKeysDistinct` |
| `FeatureRow.InputDict` | app.py:24-36 | `input_dict`; its keys and values are stated by `InputDictSize` |
| `FeatureRow.Lookup` | app.py:40 | `input_dict.get(col, 0)`; what it yields is stated by `NumericPassThrough`, `OneHot`, `OtherColumnsZero` and `LookupValues` |
| `FeatureRow.InputDictSize` | app.py:24-36 | `input_dict` has exactly 11 keys, and each entry's value is the one written for it (none is overwritten) |
| `PyDict.ToDict` | app.py:24-36 | the dict a literal evaluates to, entries written left to right; its contract is stated by `ToDictKeys` and `ToDictLastWrite` |
| `PyDict.GetLiteral` | app.py:24-40 | `get(key, default)` on a dict literal gives the value of the last entry written for `key`, and the default when no entry has that key |
| `PyDict.Columns` | app.py:40 | the comprehension's keys are distinct, are exactly the expected names, and equal the expected list when it has no repeats |
| `PyDict.ColumnsOrder` | app.py:40 | the comprehension's keys come in the order of their first occurrence among the expected names |
| `PyDict.RowGet` | app.py:40 | not an operation of app.py, which never reads a cell by name: the by-name view of the row that the row lemmas are stated through. It finds nothing exactly when no cell has that name, and otherwise the first such cell's value |
| `FeatureRow.BuildRow` | app.py:39-40 | each cell holds `input_dict.get(name, 0)` for its name; with no repeated expected name, the cells' names are the expected columns in order |
| `FeatureRow.RowSchema` | app.py:39-40 | the row has one cell per distinct expected column: names pairwise distinct, each expected, none missing, no more cells than expected names |
| `FeatureRow.NumericPassThrough` | app.py:25-29 | each slider's column in `input_dict` holds the slider's value unchanged |
| `FeatureRow.OneHot` | app.py:30-35 | a drop-down's column for answer `v` holds 1 when `v` was chosen and 0 for every other answer |
| `FeatureRow.OtherColumnsZero` | app.py:24-40 | a name that is neither a slider column nor a chosen answer's one-hot key is absent from `input_dict` and is filled with 0 |
| `FeatureRow.LookupValues` | app.py:24-40 | every value taken from `input_dict` is 0, 1 or the value of the slider whose column it is |
| `FeatureRow.ColumnValue` | app.py:40 | reading column `col` of the row gives `get(col, 0)` when `col` is expected and nothing otherwise; the value depends only on `col` and the answers |
| `FeatureRow.RowNumeric` | app.py:25-40 | an expected slider column carries the raw slider value in the row; an unexpected one is absent |
| `FeatureRow.RowOneHot` | app.py:30-40 | an expected one-hot column holds 1 for the chosen answer and 0 for any other; an unexpected one is absent |
| `FeatureRow.RowMissingZero` | app.py:40 | a cell whose name is not a key of `input_dict` holds 0 |
| `FeatureRow.RowDropsUnexpected` | app.py:40 | a key of `input_dict` that is not expected has no cell in the row, and nothing fails |
| `FeatureRow.RowAppend` | app.py:40 | appending a name to the expected columns appends at most one cell and leaves every earlier cell unchanged |
| `FeatureRow.RowValues` | app.py:17-40 | every cell is 0, 1 or its slider's value; under the slider ranges, each slider cell is within its slider's range and every cell within [0, 150] |
| `FeatureRow.CellNumeric` | app.py:25-40 | where a schema without repeats names a slider's column at index `i`, cell `i` is that column with the slider's value |
| `FeatureRow.CellOneHot` | app.py:30-40 | where a schema without repeats names a one-hot column at index `i`, cell `i` holds 1 or 0 according to the answer |
| `FeatureRow.ExampleRow` | app.py:24-40 | for the example answers and the twelve-column example schema, the row is exactly the expected twelve cells |
| `FeatureRow.UnseenRegionKey` | app.py:12 | an off-menu region answer such as `SNNPR` still yields its key `region_SNNPR` in `input_dict` |
| `FeatureRow.UnseenRegion` | app.py:31-40 | with a schema lacking `region_SNNPR`, that key is dropped without error and the expected `region_Oromia` column holds 0 |
| `FeatureRow.SchemaWithoutColumn` | app.py:40 | a schema without `gender_Male` yields a row without that column, whatever was chosen |

## Left out

- The Streamlit widgets (`st.title`, `st.selectbox`, `st.slider`, `st.button`,
  `st.success`; app.py:8-21, 42-44) are user interface. Only their results are
  modelled, as the `Selection` datatype. Their menus and ranges are modelled as
  the predicates `OnMenus` and `InSliderRanges`.
- `joblib.load` (app.py:6) is file I/O on a serialized model that is not part
  of this model. The model's `feature_names_in_` is the `features` parameter.
- `model.predict(row)` and `int(prediction)` (app.py:43-44) are an opaque
  regression call and floating-point truncation.
- The pandas `DataFrame` wrapper (app.py:40) is modelled as its single row, an
  ordered sequence of (name, value) pairs. Column dtypes and the index are not
  modelled.
