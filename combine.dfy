/**
 * `combine_state_excels` of combine.py: merge the batch workbooks of one
 * state into a single workbook. The non-empty sheets of the matching files
 * are concatenated by sheet name (file order, then sheet order), each city's
 * rows are de-duplicated on the `Google Maps URL` column keeping the first,
 * and the cities are written in ascending name order with sheet names cut to
 * 31 characters. Reading and writing spreadsheets is not modelled: a
 * workbook is its base name and the outcome of reading each of its sheets.
 */
module Combine {
  import opened Text
  import opened Dicts
  import Export

  const InputDir: string := "state_city_excels"
  const OutputDir: string := "combined_excels"

  /** The position of `Google Maps URL` among the columns the scraper writes. */
  const UrlColumn: nat := 5

  /** A cell as read from a sheet: a value (numbers as their text), or blank (NaN). */
  datatype Cell = Value(text: string) | Blank

  /** A row once blanks have been filled. */
  type Row = seq<string>

  datatype Sheet = Sheet(name: string, rows: seq<seq<Cell>>)

  /** Reading one sheet either yields it or raises. */
  datatype SheetRead = Read(sheet: Sheet) | Unreadable

  /** A workbook in the input directory: its base name and its sheets in order. */
  datatype Workbook = Workbook(basename: string, sheets: seq<SheetRead>)

  /** A city's table: a sheet name and its rows. */
  datatype Table = Table(name: string, rows: seq<Row>)

  // ---------------- finding the files ----------------

  /** `glob("{code}_*.xlsx")` on a base name. */
  predicate Matches(basename: string, code: string) {
    |basename| >= |code| + 6 && StartsWith(basename, code + "_") && EndsWith(basename, ".xlsx")
  }

  /** The positions in the listing of the workbooks the pattern selects, in increasing order. */
  function MatchingPositions(listing: seq<Workbook>, code: string): (ps: seq<nat>)
    ensures forall i, j :: 0 <= i < j < |ps| ==> ps[i] < ps[j]
    ensures forall i :: 0 <= i < |ps| ==> ps[i] < |listing|
    ensures forall k :: 0 <= k < |listing| ==> (k in ps <==> Matches(listing[k].basename, code))
  {
    if listing == [] then []
    else
      var n := |listing| - 1;
      var init := listing[..n];
      assert forall k :: 0 <= k < n ==> init[k] == listing[k];
      MatchingPositions(init, code) + (if Matches(listing[n].basename, code) then [n] else [])
  }

  /**
   * The workbooks of the directory listing that the pattern selects, in
   * listing order: the listed workbooks at the matching positions.
   */
  function Matching(listing: seq<Workbook>, code: string): (r: seq<Workbook>)
    ensures |r| == |MatchingPositions(listing, code)|
    ensures forall i :: 0 <= i < |r| ==> r[i] == listing[MatchingPositions(listing, code)[i]]
  {
    if listing == [] then []
    else
      var n := |listing| - 1;
      var init := listing[..n];
      assert forall k :: 0 <= k < n ==> init[k] == listing[k];
      Matching(init, code) + (if Matches(listing[n].basename, code) then [listing[n]] else [])
  }

  /** The selected workbooks are exactly the listed ones whose names match. */
  lemma MatchingMembers(listing: seq<Workbook>, code: string)
    ensures forall w :: w in Matching(listing, code) <==> w in listing && Matches(w.basename, code)
  {
    var r, ps := Matching(listing, code), MatchingPositions(listing, code);
    forall w ensures w in r <==> w in listing && Matches(w.basename, code) {
      if w in r {
        var i :| 0 <= i < |r| && r[i] == w;
        assert ps[i] in ps;
      }
      if w in listing && Matches(w.basename, code) {
        var k :| 0 <= k < |listing| && listing[k] == w;
        assert k in ps;
        var i :| 0 <= i < |ps| && ps[i] == k;
        assert r[i] == w;
      }
    }
  }

  /**
   * The first selected workbook, whose name decides the state name, is the
   * first one in the listing that matches.
   */
  lemma FirstMatchingIsFirstListed(listing: seq<Workbook>, code: string)
    requires Matching(listing, code) != []
    ensures var p := MatchingPositions(listing, code)[0];
      && Matching(listing, code)[0] == listing[p]
      && Matches(listing[p].basename, code)
      && forall q :: 0 <= q < p ==> !Matches(listing[q].basename, code)
  {
    var ps := MatchingPositions(listing, code);
    assert ps[0] in ps;
    assert forall i :: 0 <= i < |ps| ==> ps[0] <= ps[i];
    forall q | 0 <= q < ps[0] ensures !Matches(listing[q].basename, code) {
      assert q !in ps;
    }
  }

  // ---------------- reading and merging ----------------

  /** `df.fillna("NA")` */
  function FillCell(c: Cell): string {
    match c
    case Value(t) => t
    case Blank => "NA"
  }

  function FillNa(rows: seq<seq<Cell>>): (r: seq<Row>)
    ensures |r| == |rows|
    ensures forall i :: 0 <= i < |rows| ==> |r[i]| == |rows[i]|
    ensures forall i, j :: 0 <= i < |rows| && 0 <= j < |rows[i]| ==>
      (rows[i][j].Blank? ==> r[i][j] == "NA") && (rows[i][j].Value? ==> r[i][j] == rows[i][j].text)
  {
    seq(|rows|, i requires 0 <= i < |rows| => seq(|rows[i]|, j requires 0 <= j < |rows[i]| => FillCell(rows[i][j])))
  }

  /** How many sheets of a workbook are read before the first one that raises. */
  function ReadablePrefix(sheets: seq<SheetRead>): (n: nat)
    ensures n <= |sheets|
    ensures forall j :: 0 <= j < n ==> sheets[j].Read?
    ensures n < |sheets| ==> sheets[n].Unreadable?
  {
    if sheets == [] || sheets[0].Unreadable? then 0 else 1 + ReadablePrefix(sheets[1..])
  }

  /** The table merged from one sheet read: none when it is empty, otherwise its rows with blanks filled. */
  function SheetTable(s: SheetRead): (r: seq<Table>)
    ensures |r| <= 1 && forall t :: t in r ==> t.rows != []
  {
    if s.Unreadable? || s.sheet.rows == [] then [] else [Table(s.sheet.name, FillNa(s.sheet.rows))]
  }

  /** The tables merged from sheets read in order: the non-empty ones, blanks filled. */
  function Kept(sheets: seq<SheetRead>): (r: seq<Table>)
    ensures |r| <= |sheets|
    ensures forall t :: t in r ==> t.rows != []
  {
    if sheets == [] then [] else Kept(sheets[..|sheets| - 1]) + SheetTable(sheets[|sheets| - 1])
  }

  /**
   * The tables a workbook contributes: an exception while reading a sheet
   * abandons the rest of that workbook, but what was merged before it stays.
   */
  function WorkbookTables(w: Workbook): (r: seq<Table>)
    ensures forall t :: t in r ==> t.rows != []
  {
    Kept(w.sheets[..ReadablePrefix(w.sheets)])
  }

  /** The tables of all workbooks, in file order. */
  function AllTables(files: seq<Workbook>): (r: seq<Table>)
    ensures forall t :: t in r ==> t.rows != []
  {
    if files == [] then [] else AllTables(files[..|files| - 1]) + WorkbookTables(files[|files| - 1])
  }

  /** Merging one table: a new city is appended, a known one gets the rows appended to its own. */
  function AddTable(d: Dict<seq<Row>>, t: Table): (r: Dict<seq<Row>>)
    requires d.Valid()
    ensures r.Valid()
    ensures t.name in d.values ==> r.keys == d.keys && r.values[t.name] == d.values[t.name] + t.rows
    ensures t.name !in d.values ==> r.keys == d.keys + [t.name] && r.values[t.name] == t.rows
  {
    Put(d, t.name, if t.name in d.values then d.values[t.name] + t.rows else t.rows)
  }

  /** `combined_data` after merging the tables `ts` in order. */
  function Union(ts: seq<Table>): (d: Dict<seq<Row>>)
    ensures d.Valid()
    ensures forall n :: n in d.values <==> exists i :: 0 <= i < |ts| && ts[i].name == n
  {
    if ts == [] then Empty()
    else
      var init := ts[..|ts| - 1];
      assert forall i :: 0 <= i < |ts| - 1 ==> init[i] == ts[i];
      AddTable(Union(init), ts[|ts| - 1])
  }

  /** The rows of every table named `n`, concatenated in order. */
  function RowsNamed(ts: seq<Table>, n: string): seq<Row> {
    if ts == [] then []
    else
      var t := ts[|ts| - 1];
      RowsNamed(ts[..|ts| - 1], n) + (if t.name == n then t.rows else [])
  }

  /** The number of rows of all tables: `total_records`. */
  function RowCount(ts: seq<Table>): nat {
    if ts == [] then 0 else RowCount(ts[..|ts| - 1]) + |ts[|ts| - 1].rows|
  }

  /** Each city of the merge holds exactly the rows of its sheets, concatenated in file and sheet order. */
  lemma {:induction false} UnionIsConcatenation(ts: seq<Table>, n: string)
    requires n in Union(ts).values
    ensures Union(ts).values[n] == RowsNamed(ts, n)
  {
    var init := ts[..|ts| - 1];
    var t := ts[|ts| - 1];
    if n in Union(init).values {
      UnionIsConcatenation(init, n);
    } else {
      NoTableNoRows(init, n);
    }
  }

  lemma {:induction false} NoTableNoRows(ts: seq<Table>, n: string)
    requires n !in Union(ts).values
    ensures RowsNamed(ts, n) == []
  {
    if ts != [] {
      var init := ts[..|ts| - 1];
      assert forall i :: 0 <= i < |init| ==> init[i] == ts[i];
      NoTableNoRows(init, n);
    }
  }

  // ---------------- record counts ----------------

  /** The number of rows held by the cities `keys`. */
  function RecordsIn(keys: seq<string>, values: map<string, seq<Row>>): nat
    requires forall k :: k in keys ==> k in values
  {
    if keys == [] then 0 else RecordsIn(keys[..|keys| - 1], values) + |values[keys[|keys| - 1]]|
  }

  /** Changing the rows of one listed city changes the count by the difference. */
  lemma {:induction false} RecordsInUpdate(keys: seq<string>, values: map<string, seq<Row>>, k: string, rows: seq<Row>)
    requires forall c :: c in keys ==> c in values
    requires Distinct(keys)
    ensures k in keys ==> RecordsIn(keys, values[k := rows]) + |values[k]| == RecordsIn(keys, values) + |rows|
    ensures k !in keys ==> RecordsIn(keys, values[k := rows]) == RecordsIn(keys, values)
  {
    if keys != [] {
      var init := keys[..|keys| - 1];
      assert forall i :: 0 <= i < |init| ==> init[i] == keys[i];
      assert keys == init + [keys[|keys| - 1]];
      RecordsInUpdate(init, values, k, rows);
    }
  }

  /** Merging keeps every row: the cities together hold `total_records` rows. */
  lemma {:induction false} UnionKeepsEveryRow(ts: seq<Table>)
    ensures RecordsIn(Union(ts).keys, Union(ts).values) == RowCount(ts)
  {
    if ts != [] {
      var init := ts[..|ts| - 1];
      var t := ts[|ts| - 1];
      var d := Union(init);
      UnionKeepsEveryRow(init);
      var rows := if t.name in d.values then d.values[t.name] + t.rows else t.rows;
      RecordsInUpdate(d.keys, d.values, t.name, rows);
      if t.name !in d.values {
        var keys := d.keys + [t.name];
        assert keys[..|keys| - 1] == d.keys;
      }
    }
  }

  // ---------------- drop_duplicates(subset=['Google Maps URL'], keep='first') ----------------

  /** The `Google Maps URL` cell of a row ("NA" once filled when the row has no such cell). */
  function UrlOf(row: Row): string {
    if |row| > UrlColumn then row[UrlColumn] else "NA"
  }

  /** Row `i` is the first with its URL. */
  predicate IsFirst(rows: seq<Row>, i: nat)
    requires i < |rows|
  {
    forall j :: 0 <= j < i ==> UrlOf(rows[j]) != UrlOf(rows[i])
  }

  /** The rows that are the first with their URL, in their original order. */
  function DropDuplicates(rows: seq<Row>): (r: seq<Row>)
    ensures |r| <= |rows|
  {
    if rows == [] then []
    else
      var n := |rows| - 1;
      DropDuplicates(rows[..n]) + (if IsFirst(rows, n) then [rows[n]] else [])
  }

  /** The positions of the first occurrences, ascending. */
  function FirstIndices(rows: seq<Row>): (idx: seq<nat>)
    ensures forall j :: 0 <= j < |idx| ==> idx[j] < |rows| && IsFirst(rows, idx[j])
    ensures forall i :: 0 <= i < |rows| && IsFirst(rows, i) ==> i in idx
    ensures forall p, q :: 0 <= p < q < |idx| ==> idx[p] < idx[q]
  {
    if rows == [] then []
    else
      var n := |rows| - 1;
      var init := rows[..n];
      var rest := FirstIndices(init);
      assert forall i :: 0 <= i < n ==> (IsFirst(init, i) <==> IsFirst(rows, i));
      rest + (if IsFirst(rows, n) then [n] else [])
  }

  /**
   * The de-duplicated rows are exactly the first occurrence of each URL, in
   * input order: the rows at the positions `FirstIndices(rows)`.
   */
  lemma {:induction false} DropDuplicatesKeepsFirst(rows: seq<Row>)
    ensures |DropDuplicates(rows)| == |FirstIndices(rows)|
    ensures forall j :: 0 <= j < |DropDuplicates(rows)| ==> DropDuplicates(rows)[j] == rows[FirstIndices(rows)[j]]
  {
    if rows != [] {
      var n := |rows| - 1;
      var init := rows[..n];
      DropDuplicatesKeepsFirst(init);
      IsFirstPrefix(rows, n);
      var d, idx := DropDuplicates(init), FirstIndices(init);
      var all, allIdx := DropDuplicates(rows), FirstIndices(rows);
      assert allIdx == idx + (if IsFirst(rows, n) then [n] else []);
      assert all == d + (if IsFirst(rows, n) then [rows[n]] else []);
      forall j | 0 <= j < |all| ensures all[j] == rows[allIdx[j]] {
        if j < |d| {
          assert all[j] == d[j] == init[idx[j]];
        }
      }
    }
  }

  /** Being first with a URL only depends on the rows before. */
  lemma IsFirstPrefix(rows: seq<Row>, n: nat)
    requires n <= |rows|
    ensures forall i :: 0 <= i < n ==> (IsFirst(rows[..n], i) <==> IsFirst(rows, i))
  {
    assert forall j :: 0 <= j < n ==> rows[..n][j] == rows[j];
  }

  /** No two surviving rows share a URL, and every URL of the input survives. */
  lemma DropDuplicatesUrls(rows: seq<Row>)
    ensures forall p, q :: 0 <= p < q < |DropDuplicates(rows)| ==> UrlOf(DropDuplicates(rows)[p]) != UrlOf(DropDuplicates(rows)[q])
    ensures forall i :: 0 <= i < |rows| ==> exists j :: 0 <= j < |DropDuplicates(rows)| && UrlOf(DropDuplicates(rows)[j]) == UrlOf(rows[i])
  {
    DropDuplicatesKeepsFirst(rows);
    var r, idx := DropDuplicates(rows), FirstIndices(rows);
    forall i | 0 <= i < |rows|
      ensures exists j :: 0 <= j < |r| && UrlOf(r[j]) == UrlOf(rows[i])
    {
      var f := FirstWithUrl(rows, i);
      var j :| 0 <= j < |idx| && idx[j] == f;
      assert r[j] == rows[f];
    }
  }

  /** The first row carrying the URL of row `i`. */
  lemma {:induction false} FirstWithUrl(rows: seq<Row>, i: nat) returns (f: nat)
    requires i < |rows|
    ensures f <= i && IsFirst(rows, f) && UrlOf(rows[f]) == UrlOf(rows[i])
  {
    if IsFirst(rows, i) {
      f := i;
    } else {
      var j :| 0 <= j < i && UrlOf(rows[j]) == UrlOf(rows[i]);
      f := FirstWithUrl(rows, j);
    }
  }

  /** All URLs distinct. */
  predicate UrlsDistinct(rows: seq<Row>) {
    forall p, q :: 0 <= p < q < |rows| ==> UrlOf(rows[p]) != UrlOf(rows[q])
  }

  /** Nothing is dropped exactly when no URL repeats; otherwise the result is strictly shorter. */
  lemma {:induction false} DropDuplicatesUnchangedIff(rows: seq<Row>)
    ensures DropDuplicates(rows) == rows <==> UrlsDistinct(rows)
    ensures !UrlsDistinct(rows) ==> |DropDuplicates(rows)| < |rows|
  {
    if rows != [] {
      var n := |rows| - 1;
      var init := rows[..n];
      DropDuplicatesUnchangedIff(init);
      DistinctStep(rows);
      assert rows == init + [rows[n]];
      var d := DropDuplicates(init);
      if d != init {
        assert |d| < |init| && DropDuplicates(rows) != rows by {
          if IsFirst(rows, n) {
            assert |DropDuplicates(rows)| == |d| + 1;
          }
        }
      }
    }
  }

  /** The URLs of a sequence are distinct exactly when those before the last are and the last is new. */
  lemma DistinctStep(rows: seq<Row>)
    requires rows != []
    ensures UrlsDistinct(rows) <==> UrlsDistinct(rows[..|rows| - 1]) && IsFirst(rows, |rows| - 1)
  {
    var n := |rows| - 1;
    var init := rows[..n];
    assert forall p :: 0 <= p < n ==> init[p] == rows[p];
  }

  /** De-duplicating twice drops nothing more. */
  lemma DropDuplicatesIdempotent(rows: seq<Row>)
    ensures DropDuplicates(DropDuplicates(rows)) == DropDuplicates(rows)
  {
    DropDuplicatesUrls(rows);
    DropDuplicatesUnchangedIff(DropDuplicates(rows));
  }

  // ---------------- sorted(combined_data.items()) ----------------

  /** Strictly ascending in Python's string order. */
  predicate Ascending(s: seq<string>) {
    forall i, j :: 0 <= i < j < |s| ==> Less(s[i], s[j])
  }

  function Insert(k: string, s: seq<string>): (r: seq<string>)
    ensures multiset(r) == multiset(s) + multiset{k}
  {
    if s == [] || Less(k, s[0]) then [k] + s
    else
      assert s == [s[0]] + s[1..];
      [s[0]] + Insert(k, s[1..])
  }

  /** The keys in ascending order (an insertion sort). */
  function SortKeys(keys: seq<string>): (r: seq<string>)
    ensures multiset(r) == multiset(keys)
    ensures |r| == |keys| && forall k :: k in r <==> k in keys
  {
    assert forall k :: k in keys <==> k in multiset(keys);
    if keys == [] then []
    else
      assert keys == [keys[0]] + keys[1..];
      var r := Insert(keys[0], SortKeys(keys[1..]));
      assert forall k :: k in r <==> k in multiset(r);
      r
  }

  lemma {:induction false} InsertAscending(k: string, s: seq<string>)
    requires Ascending(s) && k !in s
    ensures Ascending(Insert(k, s))
  {
    if s == [] {
    } else if Less(k, s[0]) {
      forall j | 1 <= j < |s| + 1 ensures Less(k, ([k] + s)[j]) {
        if j > 1 {
          LessTransitive(k, s[0], s[j - 1]);
        }
      }
    } else {
      LessTotal(k, s[0]);
      InsertAscending(k, s[1..]);
      var r := Insert(k, s[1..]);
      forall x | x in r ensures Less(s[0], x) {
        assert x in multiset(r);
      }
    }
  }

  /** The cities are written in strictly ascending name order, each exactly once. */
  lemma {:induction false} SortKeysAscending(keys: seq<string>)
    requires Distinct(keys)
    ensures Ascending(SortKeys(keys))
    ensures forall k :: k in SortKeys(keys) <==> k in keys
    ensures |SortKeys(keys)| == |keys|
  {
    assert multiset(SortKeys(keys)) == multiset(keys);
    assert forall k :: k in SortKeys(keys) <==> k in multiset(SortKeys(keys));
    if keys != [] {
      SortKeysAscending(keys[1..]);
      assert keys[0] !in keys[1..];
      InsertAscending(keys[0], SortKeys(keys[1..]));
    }
  }

  // ---------------- the output ----------------

  /** `parts = basename.split("_")`; `parts[1]` when there are two parts, else "Unknown". */
  function StateName(basename: string): (s: string)
    ensures '_' !in s
  {
    var parts := Split(basename, '_');
    if |parts| >= 2 then parts[1] else "Unknown"
  }

  /**
   * On a file the batch writer named, the state read back is the file's
   * state name up to its first underscore: the whole name for a one-word
   * state, only the first word otherwise (the writer turned spaces into
   * underscores).
   */
  lemma StateNameOfBatchFile(code: string, state: string, batchNum: nat, timestamp: string)
    requires '_' !in code
    ensures StateName(Export.BatchBaseName(code, state, batchNum, timestamp)) == TakeUntil(Export.FileStateName(state), '_')
  {
    var f := Export.FileStateName(state);
    var tail := Export.BatchSuffix(batchNum) + "_" + timestamp + ".xlsx";
    assert Export.BatchBaseName(code, state, batchNum, timestamp) == code + "_" + (f + tail);
    StateNameAfterCode(code, f + tail);
    StopsBeforeUnderscore(f, tail);
  }

  lemma StopsBeforeUnderscore(f: string, tail: string)
    requires tail != [] && tail[0] == '_'
    ensures TakeUntil(f + tail, '_') == TakeUntil(f, '_')
  {
    TakeUntilAppend(f, tail, '_');
  }

  /** The state read from a name `{code}_{rest}` is `rest` up to its first underscore. */
  lemma StateNameAfterCode(code: string, rest: string)
    requires '_' !in code
    ensures StateName(code + "_" + rest) == TakeUntil(rest, '_')
  {
    var name := code + "_" + rest;
    assert name == code + ("_" + rest);
    TakeUntilAppend(code, "_" + rest, '_');
    SplitSecond(name, '_');
    assert name[|code| + 1..] == rest;
  }

  /** A one-word state survives the round trip through the file name. */
  lemma OneWordStateRecovered(code: string, state: string, batchNum: nat, timestamp: string)
    requires '_' !in code && '_' !in state && ' ' !in state
    ensures StateName(Export.BatchBaseName(code, state, batchNum, timestamp)) == state
  {
    StateNameOfBatchFile(code, state, batchNum, timestamp);
    var f := Export.FileStateName(state);
    assert f == state;
    TakeUntilAppend(f, [], '_');
    assert f + [] == f;
  }

  /** A state of several words ("New Mexico", written `NM_New_Mexico_...`) is read back as its first word ("New"). */
  lemma MultiWordStateKeepsFirstWord(code: string, first: string, rest: string, batchNum: nat, timestamp: string)
    requires '_' !in code && '_' !in first && ' ' !in first
    ensures StateName(Export.BatchBaseName(code, first + " " + rest, batchNum, timestamp)) == first
  {
    StateNameOfBatchFile(code, first + " " + rest, batchNum, timestamp);
    FileStateNameOfWords(first, rest);
    TakeUntilAppend(first, "_" + Export.FileStateName(rest), '_');
    StopsBeforeUnderscore([], "_" + Export.FileStateName(rest));
  }

  /** The writer turns the space after a first word into an underscore. */
  lemma FileStateNameOfWords(first: string, rest: string)
    requires ' ' !in first
    ensures Export.FileStateName(first + " " + rest) == first + ("_" + Export.FileStateName(rest))
  {
    var s := first + " " + rest;
    var f, r := Export.FileStateName(s), Export.FileStateName(rest);
    var g := first + ("_" + r);
    forall i | 0 <= i < |f| ensures f[i] == g[i] {
      assert f[i] == (if s[i] == ' ' then '_' else s[i]);
      if i < |first| {
        assert s[i] == first[i] == g[i];
      } else if i == |first| {
        assert s[i] == ' ' && g[i] == '_';
      } else {
        var k := i - |first| - 1;
        assert s[i] == rest[k] && g[i] == r[k];
      }
    }
  }

  /** `{state_code}_{state_name}_COMBINED_{timestamp}.xlsx` inside the output directory. */
  function OutputPath(code: string, stateName: string, timestamp: string): (path: string)
    ensures StartsWith(path, OutputDir + "/" + code + "_")
    ensures EndsWith(path, "_COMBINED_" + timestamp + ".xlsx")
  {
    var head := OutputDir + "/" + code + "_";
    var tail := "_COMBINED_" + timestamp + ".xlsx";
    var path := head + stateName + tail;
    assert path[..|head|] == head;
    assert path[|path| - |tail|..] == tail;
    path
  }

  /** `combined_data[city] = combined_data[city].drop_duplicates(...)` for every city. */
  function Deduplicated(d: Dict<seq<Row>>): (r: Dict<seq<Row>>)
    requires d.Valid()
    ensures r.Valid() && r.keys == d.keys
  {
    Dict(d.keys, map k | k in d.values :: DropDuplicates(d.values[k]))
  }

  /** One sheet per city of `order`, in that order, named by the first 31 characters of the city. */
  function SheetsIn(order: seq<string>, values: map<string, seq<Row>>): (sheets: seq<Table>)
    requires forall k :: k in order ==> k in values
    ensures |sheets| == |order|
    ensures forall i :: 0 <= i < |sheets| ==> sheets[i] == Table(Truncate(order[i], Export.SheetNameLimit), values[order[i]])
  {
    if order == [] then []
    else
      var n := |order| - 1;
      SheetsIn(order[..n], values) + [Table(Truncate(order[n], Export.SheetNameLimit), values[order[n]])]
  }

  /** The sheets written: every city in ascending name order, its sheet named by the first 31 characters. */
  function Sheets(d: Dict<seq<Row>>): (sheets: seq<Table>)
    requires d.Valid()
    ensures |sheets| == |d.keys|
    ensures forall i :: 0 <= i < |sheets| ==> exists c :: c in d.values && sheets[i] == Table(Truncate(c, Export.SheetNameLimit), d.values[c])
  {
    var order := SortKeys(d.keys);
    var written := SheetsIn(order, d.values);
    forall i | 0 <= i < |written|
      ensures exists c :: c in d.values && written[i] == Table(Truncate(c, Export.SheetNameLimit), d.values[c])
    {
      assert order[i] in order;
    }
    written
  }

  datatype Outcome =
    | NoFiles
    | NoData
    | Written(path: string, sheets: seq<Table>, totalSheets: nat, totalRecords: nat, finalRecords: nat)

  /** The rows left in the cities `keys` once each is de-duplicated. */
  lemma {:induction false} DedupRecords(keys: seq<string>, values: map<string, seq<Row>>, deduped: map<string, seq<Row>>)
    requires forall k :: k in keys ==> k in values && k in deduped && deduped[k] == DropDuplicates(values[k])
    ensures RecordsIn(keys, deduped) <= RecordsIn(keys, values)
    ensures RecordsIn(keys, deduped) == RecordsIn(keys, values) <==> forall k :: k in keys ==> UrlsDistinct(values[k])
  {
    if keys != [] {
      var init := keys[..|keys| - 1];
      var k := keys[|keys| - 1];
      assert forall c :: c in init ==> c in keys;
      DedupRecords(init, values, deduped);
      DropDuplicatesUnchangedIff(values[k]);
      assert forall c :: c in keys ==> c in init || c == k;
    }
  }

  /**
   * `total_records - final_records` is never negative, and is zero exactly
   * when no city holds two rows with the same URL.
   */
  lemma DuplicatesRemoved(ts: seq<Table>)
    ensures var d := Union(ts); var e := Deduplicated(d);
      RecordsIn(e.keys, e.values) <= RowCount(ts)
      && (RecordsIn(e.keys, e.values) == RowCount(ts) <==> forall n :: n in d.values ==> UrlsDistinct(d.values[n]))
  {
    var d := Union(ts);
    var e := Deduplicated(d);
    UnionKeepsEveryRow(ts);
    DedupRecords(d.keys, d.values, e.values);
  }

  /**
   * The combined workbook: one sheet per city named in any input sheet, in
   * strictly ascending city order, holding the first row of each URL among
   * the rows of all sheets of that name, in file and sheet order.
   */
  lemma CombinedSheets(ts: seq<Table>)
    ensures var d := Deduplicated(Union(ts)); var order := SortKeys(d.keys);
      && Ascending(order)
      && (forall n :: n in order <==> exists i :: 0 <= i < |ts| && ts[i].name == n)
      && |Sheets(d)| == |order|
      && forall i :: 0 <= i < |order| ==>
           && Sheets(d)[i] == Table(Truncate(order[i], Export.SheetNameLimit), DropDuplicates(RowsNamed(ts, order[i])))
           && UrlsDistinct(Sheets(d)[i].rows)
  {
    var u := Union(ts);
    var d := Deduplicated(u);
    var order := SortKeys(d.keys);
    SortKeysAscending(d.keys);
    forall i | 0 <= i < |order|
      ensures Sheets(d)[i] == Table(Truncate(order[i], Export.SheetNameLimit), DropDuplicates(RowsNamed(ts, order[i])))
      ensures UrlsDistinct(Sheets(d)[i].rows)
    {
      UnionIsConcatenation(ts, order[i]);
      DropDuplicatesUrls(RowsNamed(ts, order[i]));
    }
  }

  /** Merging one more table into the merge of `acc`. */
  lemma MergeStep(acc: seq<Table>, t: Table)
    ensures Union(acc + [t]) == AddTable(Union(acc), t)
    ensures RowCount(acc + [t]) == RowCount(acc) + |t.rows|
  {
    assert (acc + [t])[..|acc|] == acc;
  }

  /** The tables merged before a workbook, followed by those of its first `si` sheets. */
  function MergedUpTo(merged: seq<Table>, sheets: seq<SheetRead>, si: nat): seq<Table>
    requires si <= |sheets|
  {
    merged + Kept(sheets[..si])
  }

  /** Reading sheet `si` merges its table, if any, after the ones before it. */
  lemma SheetStep(merged: seq<Table>, sheets: seq<SheetRead>, si: nat)
    requires si < |sheets|
    ensures MergedUpTo(merged, sheets, si + 1) == MergedUpTo(merged, sheets, si) + SheetTable(sheets[si])
  {
    assert sheets[..si + 1][..si] == sheets[..si];
    assert Kept(sheets[..si + 1]) == Kept(sheets[..si]) + SheetTable(sheets[si]);
  }

  /**
   * One sheet read: when its frame is not empty, fill its blanks, append its
   * rows to those of its city (or add the city) and count it.
   */
  method MergeSheet(sheet: Sheet, combined: Dict<seq<Row>>, totalSheets: nat, totalRecords: nat, ghost acc: seq<Table>)
    returns (combined': Dict<seq<Row>>, totalSheets': nat, totalRecords': nat)
    requires combined == Union(acc) && totalSheets == |acc| && totalRecords == RowCount(acc)
    ensures var acc' := acc + SheetTable(Read(sheet));
      combined' == Union(acc') && totalSheets' == |acc'| && totalRecords' == RowCount(acc')
  {
    combined', totalSheets', totalRecords' := combined, totalSheets, totalRecords;
    if sheet.rows != [] {
      var df := FillNa(sheet.rows);
      MergeStep(acc, Table(sheet.name, df));
      if sheet.name in combined'.values {
        combined' := Put(combined', sheet.name, combined'.values[sheet.name] + df);
      } else {
        combined' := Put(combined', sheet.name, df);
      }
      totalSheets' := totalSheets' + 1;
      totalRecords' := totalRecords' + |df|;
    } else {
      assert acc + SheetTable(Read(sheet)) == acc;
    }
  }

  /**
   * The body of `for sheet_name in excel_file.sheet_names` for one workbook:
   * read sheets until one raises, merging each into `combined`. Returns the
   * new dict and counters.
   */
  method MergeWorkbook(w: Workbook, combined: Dict<seq<Row>>, totalSheets: nat, totalRecords: nat, ghost merged: seq<Table>)
    returns (combined': Dict<seq<Row>>, totalSheets': nat, totalRecords': nat)
    requires combined == Union(merged) && totalSheets == |merged| && totalRecords == RowCount(merged)
    ensures var merged' := merged + WorkbookTables(w);
      combined' == Union(merged') && totalSheets' == |merged'| && totalRecords' == RowCount(merged')
  {
    combined', totalSheets', totalRecords' := combined, totalSheets, totalRecords;
    var sheets := w.sheets;
    var si := 0;
    assert MergedUpTo(merged, sheets, 0) == merged;
    while si < |sheets| && sheets[si].Read?
      invariant si <= ReadablePrefix(sheets)
      invariant var acc := MergedUpTo(merged, sheets, si);
        combined' == Union(acc) && totalSheets' == |acc| && totalRecords' == RowCount(acc)
    {
      SheetStep(merged, sheets, si);
      combined', totalSheets', totalRecords' := MergeSheet(sheets[si].sheet, combined', totalSheets', totalRecords', MergedUpTo(merged, sheets, si));
      si := si + 1;
    }
    assert si == ReadablePrefix(sheets);
  }

  /** The cities before position `ci` are de-duplicated, the others untouched. */
  ghost predicate DedupedUpTo(d: Dict<seq<Row>>, r: Dict<seq<Row>>, ci: nat) {
    && r.Valid() && r.keys == d.keys
    && (forall k :: k in r.values <==> k in d.values)
    && (forall j :: 0 <= j < |d.keys| && j < ci ==> r.values[d.keys[j]] == DropDuplicates(d.values[d.keys[j]]))
    && (forall j :: 0 <= j < |d.keys| && ci <= j ==> r.values[d.keys[j]] == d.values[d.keys[j]])
  }

  lemma DedupStep(d: Dict<seq<Row>>, r: Dict<seq<Row>>, ci: nat)
    requires d.Valid() && DedupedUpTo(d, r, ci) && ci < |d.keys|
    ensures DedupedUpTo(d, r, ci) && DedupedUpTo(d, Put(r, d.keys[ci], DropDuplicates(r.values[d.keys[ci]])), ci + 1)
  {
  }

  lemma DedupDone(d: Dict<seq<Row>>, r: Dict<seq<Row>>)
    requires d.Valid() && DedupedUpTo(d, r, |d.keys|)
    ensures r == Deduplicated(d)
  {
    var e := Deduplicated(d);
    forall k | k in r.values ensures r.values[k] == e.values[k] {
      var j :| 0 <= j < |d.keys| && d.keys[j] == k;
    }
    assert r.values == e.values;
  }

  /** `for city in combined_data:` replace each city's rows by their de-duplication, in place. */
  method DeduplicateAll(d: Dict<seq<Row>>) returns (r: Dict<seq<Row>>)
    requires d.Valid()
    ensures r == Deduplicated(d)
  {
    r := d;
    for ci := 0 to |d.keys|
      invariant DedupedUpTo(d, r, ci)
    {
      DedupStep(d, r, ci);
      var city := r.keys[ci];
      r := Put(r, city, DropDuplicates(r.values[city]));
    }
    DedupDone(d, r);
  }

  /** `for city, df in sorted(combined_data.items())`: one sheet per city, named `city[:31]`. */
  method WriteSheets(d: Dict<seq<Row>>) returns (written: seq<Table>)
    requires d.Valid()
    ensures written == Sheets(d)
  {
    var order := SortKeys(d.keys);
    written := [];
    for i := 0 to |order|
      invariant forall k :: k in order ==> k in d.values
      invariant written == SheetsIn(order[..i], d.values)
    {
      assert order[..i + 1][..i] == order[..i];
      written := written + [Table(Truncate(order[i], Export.SheetNameLimit), d.values[order[i]])];
    }
    assert order[..|order|] == order;
  }

  /** `sum(len(df) for df in combined_data.values())` */
  method CountRecords(d: Dict<seq<Row>>) returns (n: nat)
    requires d.Valid()
    ensures n == RecordsIn(d.keys, d.values)
  {
    n := 0;
    for i := 0 to |d.keys|
      invariant n == RecordsIn(d.keys[..i], d.values)
    {
      assert d.keys[..i + 1][..i] == d.keys[..i];
      n := n + |d.values[d.keys[i]]|;
    }
    assert d.keys[..|d.keys|] == d.keys;
  }

  /**
   * `combine_state_excels(state_code)` over the input directory's `listing`
   * (in the order the directory lists it) at time `timestamp`.
   */
  method CombineStateExcels(stateCode: string, listing: seq<Workbook>, timestamp: string) returns (out: Outcome)
    ensures Matching(listing, stateCode) == [] <==> out == NoFiles
    ensures Matching(listing, stateCode) != [] ==>
      var files := Matching(listing, stateCode);
      var tables := AllTables(files);
      var combined := Deduplicated(Union(tables));
      && (tables == [] <==> out == NoData)
      && (tables != [] ==>
            out == Written(OutputPath(stateCode, StateName(files[0].basename), timestamp), Sheets(combined),
                           |tables|, RowCount(tables), RecordsIn(combined.keys, combined.values)))
  {
    var files := Matching(listing, stateCode);
    if files == [] {
      return NoFiles;
    }
    var combined: Dict<seq<Row>> := Empty();
    var totalSheets, totalRecords := 0, 0;
    for fi := 0 to |files|
      invariant combined == Union(AllTables(files[..fi]))
      invariant totalSheets == |AllTables(files[..fi])| && totalRecords == RowCount(AllTables(files[..fi]))
    {
      assert files[..fi + 1][..fi] == files[..fi];
      combined, totalSheets, totalRecords := MergeWorkbook(files[fi], combined, totalSheets, totalRecords, AllTables(files[..fi]));
    }
    assert files[..|files|] == files;
    if combined.keys == [] {
      return NoData;
    }
    combined := DeduplicateAll(combined);
    var state := "Unknown";
    var parts := Split(files[0].basename, '_');
    if |parts| >= 2 {
      state := parts[1];
    }
    var written := WriteSheets(combined);
    var finalRecords := CountRecords(combined);
    out := Written(OutputPath(stateCode, state, timestamp), written, totalSheets, totalRecords, finalRecords);
  }
}
