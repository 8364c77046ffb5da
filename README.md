# Candidates transform, modelled in Dafny

This project models the `Transform` class of the candidates ETL utility
(`src/transform.py`). A `Transform` holds a pandas data frame in its field
`df`. It renames the columns of the hand-written candidates file to the
vocabulary of the `Candidates` table (`src/model.py`), and it assigns a
sequential surrogate key in column `ID`.

Files:

- `table.dfy` (module `Table`): the data frame as a value. It has a header of
  column labels, kept as a sequence so that order and duplicate labels
  survive. It has rows of cells, and `WellFormed` says every row has one cell
  per label.
- `schema.dfy` (module `Schema`): the column names of the `Candidates` model,
  as constants. The model declares columns and has no behaviour.
- `transform.dfy` (module `Transforms`): the fixed rename mapping, the
  specification functions `RenamedHeader` and `WithIds`, the lemmas about
  them, and the class `Transform` with its methods `RenameColumns` and
  `InsertIds`. Both methods update `df` in place, and each is proved to leave
  `df` equal to the specification function applied to the old frame.

Semantics taken from pandas, as the source relies on them:

- `DataFrame.rename(columns=dict)` maps each label on its own. A label that
  is a key is replaced by its value. Any other label is kept. Duplicate
  labels are allowed, so a header holding both `First Name` and `First_Name`
  ends up with two `First_Name` columns.
- `df['ID'] = range(1, len(df) + 1)` overwrites an existing `ID` column
  where it stands. When there is no `ID` column, one is appended as the last
  column. `len(df)` is the number of rows.
- The label `ID` occurs at most once. `read_csv` renames a repeated header
  name (`ID`, `ID.1`, ...), and no rename target is `ID`. The constructor
  requires this, and `Valid()` keeps it through both operations.

About `src/transform.py` itself:

- The mapping holds only the five space-separated labels, so spellings such
  as `FirstName` pass through unchanged.
- Ids are assigned here as `1..N` in row order, not by the database's
  autoincrement declared in `src/model.py`.
- No date coercion happens in `Transform`.

## Model

| member | source | states |
|---|---|---|
| `Transforms.RenameLabel` | src/transform.py:10-16 | A label changes exactly when it is one of the five mapped labels. A changed label is one of the `Candidates` data columns. No result is itself a key of the mapping. A label renames to `ID` exactly when it is `ID`. |
| `Transforms.RenamedHeader` | src/transform.py:10-16 | Renaming keeps the number and order of labels. Label i of the result is label i of the input, renamed on its own. |
| `Transforms.RenameIdempotent` | src/transform.py:10-16 | Renaming a second time leaves the header unchanged. |
| `Transforms.RenameHumanLabel` | src/transform.py:10-16 | Each column of the hand-written header is renamed to the matching data column of the model. `Email`, `Country`, `YOE`, `Seniority` and `Technology` are kept. |
| `Transforms.RenameHumanHeader` | src/transform.py:9-16 | The hand-written header renames to exactly the data columns of `Candidates`, in declaration order. |
| `Transforms.RenamedHumanHeaderInModel` | src/model.py:8-18 | Every label of the renamed hand-written header is a column of the `Candidates` model. |
| `Transforms.OneTo` | src/transform.py:21 | `range(1, n + 1)` has n elements, and element i is i + 1. |
| `Transforms.StampRow` | src/transform.py:21 | Stamping a row keeps its length. Every cell under an `ID` label becomes the id. Every other cell is unchanged. |
| `Transforms.StampRows` | src/transform.py:21 | Overwriting the `ID` column keeps the row count and every row's width. |
| `Transforms.AppendIds` | src/transform.py:21 | Appending the id column keeps the row count. Row i gains exactly one last cell holding id next + i. |
| `Transforms.WithIds` | src/transform.py:21 | After id insertion, the row count is unchanged, rows stay rectangular and `ID` still occurs at most once. An existing `ID` label keeps the header as it was. Otherwise exactly one `ID` label is appended. Each cell under `ID` in row i is i + 1. Every other cell is unchanged. |
| `Transforms.IdsAreOneToN` | src/transform.py:21 | Every `ID` column reads 1..N from top to bottom. The ids are integers and strictly increasing, so there are no gaps or repeats. |
| `Transforms.EmptyTable` | src/transform.py:8-21 | On a header-only table, renaming still yields one label per column. Id insertion succeeds, produces an `ID` column and leaves zero rows. |
| `Transforms.RenameThenIds` | src/transform.py:8-21 | For a hand-written file, renaming and then inserting ids gives the `Candidates` data columns followed by `ID`. There is one output row per input row, and row i is the input row followed by id i + 1. |
| `Transforms.Transform.constructor` | src/transform.py:4-5 | The object holds the given parsed header and rows as its frame. Every row has one cell per column, and `ID` labels at most one column. |
| `Transforms.Transform.RenameColumns` | src/transform.py:8-16 | Works in place, label by label. The new header is the renamed old header, and the rows are untouched. The frame stays rectangular. |
| `Transforms.Transform.InsertIds` | src/transform.py:20-21 | Works in place. The new frame is `WithIds` of the old frame. |
| `Transforms.OverwriteIds` | src/transform.py:21 | The loop over rows and columns sets every `ID` cell to its row's 1-based position and leaves the other cells alone. |
| `Transforms.AppendIdCells` | src/transform.py:21 | The loop over rows extends each row by one cell holding its 1-based position. |

## Left out

- Reading the file in the constructor (`pd.read_csv(file, sep=';', encoding='utf-8')`, src/transform.py:5) is file I/O, UTF-8 decoding and `;`-delimited parsing inside pandas. The constructor takes the already-parsed header and rows instead, and requires every row to be as wide as the header.
- Cell types: pandas infers column dtypes such as int64, float, object and NaN. Cells are modelled as text or unbounded integers only. The ids are small positive integers, so 64-bit overflow does not arise.
- A header with `ID` more than once is not modelled. `read_csv` never produces one. On such a frame pandas writes id c into every cell of the c-th `ID` column when there are exactly N copies, and `WithIds` requires at most one `ID` label.
- The pandas index (row labels) is not modelled. `len(df)` is taken as the number of rows.
- `src/db_connection.py` is not part of this model. It looks up environment variables and builds a SQLAlchemy engine, which is configuration lookup and network plumbing in foreign libraries.
- `src/model.py` is used only for its column names. Its SQLAlchemy table declaration, its autoincrement key and its `__str__` method have no behaviour to verify here.
- Date coercion, loading into the database, email uniqueness and batch atomicity do not occur in `src/transform.py`, so they are not modelled.
