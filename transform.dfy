/** The `Transform` step of the candidates pipeline (src/transform.py): a data
    frame held in a field, whose column labels are renamed to the vocabulary of
    the `Candidates` table and which receives a sequential surrogate key `ID`. */
module Transforms {
  import opened Table
  import opened Schema

  // ---------------------------------------------------------------------------
  // Column renaming
  // ---------------------------------------------------------------------------

  /** The fixed relabelling handed to `DataFrame.rename`. */
  const RenameMap: map<string, string> :=
    map[
      "First Name" := FIRST_NAME,
      "Last Name" := LAST_NAME,
      "Application Date" := APPLICATION_DATE,
      "Code Challenge Score" := CODE_CHALLENGE_SCORE,
      "Technical Interview Score" := TECHNICAL_INTERVIEW_SCORE
    ]

  /** The header of the candidates file as it is written by hand. */
  const HumanHeader: seq<string> :=
    ["First Name", "Last Name", "Email", "Application Date", "Country", "YOE",
     "Seniority", "Technology", "Code Challenge Score", "Technical Interview Score"]

  /** Dictionary renaming of one label: a key of the map is replaced by its
      value, any other label passes through. */
  function RenameLabel(name: string): (r: string)
    // the result is never itself renamed again
    ensures r !in RenameMap
    // a label changes exactly when it is one of the mapped labels
    ensures r == name <==> name !in RenameMap
    // a changed label lands in the schema's vocabulary
    ensures name in RenameMap ==> r in DataColumns
    // `ID` is neither renamed nor produced by renaming
    ensures r == ID <==> name == ID
  {
    if name in RenameMap then RenameMap[name] else name
  }

  /** The header after renaming, label by label, in the same order. */
  function RenamedHeader(h: seq<string>): (r: seq<string>)
    ensures |r| == |h|
    ensures forall i :: 0 <= i < |h| ==> r[i] == RenameLabel(h[i])
  {
    if h == [] then [] else [RenameLabel(h[0])] + RenamedHeader(h[1..])
  }

  /** Renaming twice gives the same header as renaming once. */
  lemma RenameIdempotent(h: seq<string>)
    ensures RenamedHeader(RenamedHeader(h)) == RenamedHeader(h)
  {
  }

  /** The hand-written header is renamed to exactly the data columns of the
      `Candidates` model, in their declared order. */
  lemma RenameHumanHeader()
    ensures RenamedHeader(HumanHeader) == DataColumns
  {
    forall i | 0 <= i < |HumanHeader| ensures RenameLabel(HumanHeader[i]) == DataColumns[i] {
      RenameHumanLabel(i);
    }
    RenamedPointwise(HumanHeader, DataColumns);
  }

  /** A header whose every label renames to the matching label of `t` is renamed to `t`. */
  lemma RenamedPointwise(h: seq<string>, t: seq<string>)
    requires |h| == |t|
    requires forall i :: 0 <= i < |h| ==> RenameLabel(h[i]) == t[i]
    ensures RenamedHeader(h) == t
  {
  }

  /** Every label of the renamed hand-written header is a column of `Candidates`. */
  lemma RenamedHumanHeaderInModel()
    ensures forall l :: l in RenamedHeader(HumanHeader) ==> l in CandidateColumns
  {
  }

  /** Column `i` of the hand-written header is renamed to data column `i` of the model. */
  lemma RenameHumanLabel(i: nat)
    requires i < |HumanHeader|
    ensures RenameLabel(HumanHeader[i]) == DataColumns[i]
  {
  }

  // ---------------------------------------------------------------------------
  // Surrogate identifiers
  // ---------------------------------------------------------------------------

  /** The label `ID` occurs at most once. `read_csv` renames repeated header
      names (`ID`, `ID.1`, ...), and no rename target is `ID`, so every frame
      the program builds has this shape. */
  predicate AtMostOneId(header: seq<string>)
  {
    forall j, k :: 0 <= j < k < |header| && header[j] == ID ==> header[k] != ID
  }

  /** The integers 1..n as cells, in order. */
  function OneTo(n: nat): (r: seq<Cell>)
    ensures |r| == n
    ensures forall i :: 0 <= i < n ==> r[i] == Int(i + 1)
  {
    if n == 0 then [] else OneTo(n - 1) + [Int(n)]
  }

  /** `row` with every cell under an `ID` label set to `id`. */
  function StampRow(header: seq<string>, row: seq<Cell>, id: int): (r: seq<Cell>)
    requires |row| == |header|
    ensures |r| == |row|
    ensures forall j :: 0 <= j < |row| ==> r[j] == if header[j] == ID then Int(id) else row[j]
  {
    if row == [] then []
    else [if header[0] == ID then Int(id) else row[0]] + StampRow(header[1..], row[1..], id)
  }

  /** Every row stamped with its own id, the first one with `next`. Only the
      shape is stated here; the cell contents are stated by `WithIds`. */
  function StampRows(header: seq<string>, rows: seq<seq<Cell>>, next: int): (r: seq<seq<Cell>>)
    requires forall i :: 0 <= i < |rows| ==> |rows[i]| == |header|
    ensures |r| == |rows|
    ensures forall i :: 0 <= i < |rows| ==> |r[i]| == |header|
  {
    seq(|rows|, i requires 0 <= i < |rows| => StampRow(header, rows[i], next + i))
  }

  /** Every row extended with one more cell holding its own id, the first one `next`. */
  function AppendIds(rows: seq<seq<Cell>>, next: int): (r: seq<seq<Cell>>)
    ensures |r| == |rows|
    ensures forall i :: 0 <= i < |rows| ==> r[i] == rows[i] + [Int(next + i)]
  {
    if rows == [] then []
    else [rows[0] + [Int(next)]] + AppendIds(rows[1..], next + 1)
  }

  /** The frame after `df['ID'] = range(1, len(df) + 1)`: an existing `ID`
      column is overwritten where it stands; otherwise one `ID` column is
      added at the end. */
  function WithIds(f: Frame): (g: Frame)
    requires WellFormed(f) && AtMostOneId(f.header)
    ensures WellFormed(g) && AtMostOneId(g.header)
    ensures |g.rows| == |f.rows|
    ensures ID in f.header ==> g.header == f.header
    ensures ID !in f.header ==> g.header == f.header + [ID]
    ensures forall i, j :: 0 <= i < |g.rows| && 0 <= j < |g.header| ==>
      g.rows[i][j] == if g.header[j] == ID then Int(i + 1) else f.rows[i][j]
  {
    if ID in f.header then Frame(f.header, StampRows(f.header, f.rows, 1))
    else Frame(f.header + [ID], AppendIds(f.rows, 1))
  }

  /** After inserting ids, every `ID` column reads 1, 2, ..., N from top to
      bottom: integers, strictly increasing, without gaps or repeats. */
  lemma IdsAreOneToN(f: Frame, c: nat)
    requires WellFormed(f) && AtMostOneId(f.header)
    requires c < |WithIds(f).header| && WithIds(f).header[c] == ID
    ensures Column(WithIds(f), c) == OneTo(|f.rows|)
    ensures forall i, j :: 0 <= i < j < |f.rows| ==>
      Column(WithIds(f), c)[i].Int? && Column(WithIds(f), c)[i].value < Column(WithIds(f), c)[j].value
  {
  }

  /** On a table with a header and no rows both steps succeed and leave no rows. */
  lemma EmptyTable(h: seq<string>)
    requires AtMostOneId(h)
    ensures |RenamedHeader(h)| == |h|
    ensures WithIds(Frame(h, [])).rows == []
    ensures ID in WithIds(Frame(h, [])).header
  {
  }

  /** The whole transformation of a hand-written file: renaming followed by
      ids gives the columns of `Candidates` (key last), one row per input row,
      every data cell unchanged and the ids 1..N in the last column. */
  lemma RenameThenIds(rows: seq<seq<Cell>>)
    requires WellFormed(Frame(HumanHeader, rows))
    ensures WellFormed(Frame(RenamedHeader(HumanHeader), rows))
    ensures AtMostOneId(RenamedHeader(HumanHeader))
    ensures var g := WithIds(Frame(RenamedHeader(HumanHeader), rows));
      && g.header == DataColumns + [ID]
      && |g.rows| == |rows|
      && forall i :: 0 <= i < |rows| ==> g.rows[i] == rows[i] + [Int(i + 1)]
  {
    RenameHumanHeader();
    IdsOnDataColumns(rows);
  }

  // Helper for RenameThenIds: the data columns hold no `ID`.
  lemma IdsOnDataColumns(rows: seq<seq<Cell>>)
    requires WellFormed(Frame(DataColumns, rows))
    ensures AtMostOneId(DataColumns)
    ensures WithIds(Frame(DataColumns, rows)) == Frame(DataColumns + [ID], AppendIds(rows, 1))
  {
  }

  // ---------------------------------------------------------------------------
  // The transformer object
  // ---------------------------------------------------------------------------

  /** Holds the frame being transformed in `df`; both operations update it in place. */
  class Transform {
    var df: Frame

    ghost predicate Valid()
      reads this
    {
      WellFormed(df) && AtMostOneId(df.header)
    }

    /** Takes the already-parsed header and rows of the candidates file. */
    constructor (header: seq<string>, rows: seq<seq<Cell>>)
      requires WellFormed(Frame(header, rows)) && AtMostOneId(header)
      ensures Valid()
      ensures df == Frame(header, rows)
    {
      df := Frame(header, rows);
    }

    /** Relabels the columns through `RenameMap`, one label at a time; the
        rows are not touched. */
    method RenameColumns()
      requires Valid()
      modifies this
      ensures Valid()
      ensures df.header == RenamedHeader(old(df.header))
      ensures df.rows == old(df.rows)
    {
      var i := 0;
      while i < |df.header|
        invariant 0 <= i <= |df.header| == |old(df.header)|
        invariant df.rows == old(df.rows)
        invariant forall k :: 0 <= k < i ==> df.header[k] == RenameLabel(old(df.header)[k])
        invariant forall k :: i <= k < |df.header| ==> df.header[k] == old(df.header)[k]
      {
        df := df.(header := df.header[i := RenameLabel(df.header[i])]);
        i := i + 1;
      }
    }

    /** Sets column `ID` to 1..N in row order: every existing `ID` column is
        overwritten in place, otherwise an `ID` column is appended. */
    method InsertIds()
      requires Valid()
      modifies this
      ensures Valid()
      ensures df == WithIds(old(df))
    {
      if ID in df.header {
        var rows := OverwriteIds(df.header, df.rows);
        df := df.(rows := rows);
      } else {
        var rows := AppendIdCells(df.rows);
        df := Frame(df.header + [ID], rows);
      }
    }
  }

  /** The rows with every cell under an `ID` label set to the row's 1-based
      position: the in-place overwrite of an existing `ID` column. */
  method OverwriteIds(header: seq<string>, rows: seq<seq<Cell>>) returns (stamped: seq<seq<Cell>>)
    requires forall i :: 0 <= i < |rows| ==> |rows[i]| == |header|
    ensures stamped == StampRows(header, rows, 1)
  {
    stamped := rows;
    var i := 0;
    while i < |rows|
      invariant 0 <= i <= |rows| == |stamped|
      invariant forall k :: 0 <= k < i ==> stamped[k] == StampRow(header, rows[k], k + 1)
      invariant forall k :: i <= k < |rows| ==> stamped[k] == rows[k]
    {
      var row := rows[i];
      var j := 0;
      while j < |row|
        invariant 0 <= j <= |row| == |header|
        invariant forall m :: 0 <= m < j ==> row[m] == if header[m] == ID then Int(i + 1) else rows[i][m]
        invariant forall m :: j <= m < |row| ==> row[m] == rows[i][m]
      {
        if header[j] == ID {
          row := row[j := Int(i + 1)];
        }
        j := j + 1;
      }
      assert row == StampRow(header, rows[i], i + 1);
      stamped := stamped[i := row];
      i := i + 1;
    }
  }

  /** The rows each extended by one cell holding the row's 1-based position:
      a new `ID` column added after the last one. */
  method AppendIdCells(rows: seq<seq<Cell>>) returns (extended: seq<seq<Cell>>)
    ensures extended == AppendIds(rows, 1)
  {
    extended := rows;
    var i := 0;
    while i < |rows|
      invariant 0 <= i <= |rows| == |extended|
      invariant forall k :: 0 <= k < i ==> extended[k] == rows[k] + [Int(k + 1)]
      invariant forall k :: i <= k < |rows| ==> extended[k] == rows[k]
    {
      extended := extended[i := extended[i] + [Int(i + 1)]];
      i := i + 1;
    }
  }
}
