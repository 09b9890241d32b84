/**
 * The spreadsheet writers (`export_state_excel` in main.py and
 * `export_batch_to_excel` in main_final.py): which cities become sheets, the
 * sheet names, and the output file names. Writing the workbook itself is
 * not modelled; a sheet is its name and its records.
 */
module Export {
  import opened Text
  import opened Dicts
  import Fields

  /** Excel's limit on the length of a sheet name. */
  const SheetNameLimit: nat := 31

  const OutputDir: string := "state_city_excels"

  datatype Sheet = Sheet(name: string, rows: seq<Fields.Record>)

  /** The positions in `keys` of the cities with at least one record, in increasing order. */
  function RecordPositions(keys: seq<string>, values: map<string, seq<Fields.Record>>): (ps: seq<nat>)
    requires forall c :: c in keys ==> c in values
    ensures forall i, j :: 0 <= i < j < |ps| ==> ps[i] < ps[j]
    ensures forall i :: 0 <= i < |ps| ==> ps[i] < |keys|
    ensures forall k :: 0 <= k < |keys| ==> (k in ps <==> values[keys[k]] != [])
  {
    if keys == [] then []
    else
      var n := |keys| - 1;
      var init := keys[..n];
      assert forall k :: 0 <= k < n ==> init[k] == keys[k];
      RecordPositions(init, values) + (if values[keys[n]] != [] then [n] else [])
  }

  /** The sheet of one city: its records under the first 31 characters of its name. */
  function CitySheet(city: string, values: map<string, seq<Fields.Record>>): Sheet
    requires city in values
  {
    Sheet(Truncate(city, SheetNameLimit), values[city])
  }

  /**
   * The sheets written for the cities `keys` (in this order) of `values`: the
   * cities with at least one record, in key order, one sheet each.
   */
  function SheetsOf(keys: seq<string>, values: map<string, seq<Fields.Record>>): (sheets: seq<Sheet>)
    requires forall c :: c in keys ==> c in values
    ensures |sheets| == |RecordPositions(keys, values)|
    ensures forall i :: 0 <= i < |sheets| ==> sheets[i] == CitySheet(keys[RecordPositions(keys, values)[i]], values)
    ensures forall i :: 0 <= i < |sheets| ==> sheets[i].rows != [] && |sheets[i].name| <= SheetNameLimit
  {
    if keys == [] then []
    else
      var n := |keys| - 1;
      var init := keys[..n];
      assert forall k :: 0 <= k < n ==> init[k] == keys[k];
      var data := values[keys[n]];
      assert RecordPositions(keys, values) == RecordPositions(init, values) + (if data != [] then [n] else []);
      SheetsOf(init, values) + (if data == [] then [] else [CitySheet(keys[n], values)])
  }

  /** `export_state_excel` / `export_batch_to_excel`: the sheets of a results dict, in its key order. */
  function ExportSheets(results: Dict<seq<Fields.Record>>): (sheets: seq<Sheet>)
    requires results.Valid()
    ensures forall s :: s in sheets ==> s.rows != [] && |s.name| <= SheetNameLimit
    ensures forall c :: c in results.values && results.values[c] != [] ==> CitySheet(c, results.values) in sheets
  {
    forall c | c in results.values && results.values[c] != []
      ensures CitySheet(c, results.values) in SheetsOf(results.keys, results.values)
    {
      var k :| 0 <= k < |results.keys| && results.keys[k] == c;
      EveryNonEmptyCityExported(results.keys, results.values, k);
    }
    SheetsOf(results.keys, results.values)
  }

  /** Every city with records gets its sheet, and only cities with records do. */
  lemma EveryNonEmptyCityExported(keys: seq<string>, values: map<string, seq<Fields.Record>>, k: nat)
    requires forall c :: c in keys ==> c in values
    requires k < |keys| && values[keys[k]] != []
    ensures CitySheet(keys[k], values) in SheetsOf(keys, values)
  {
    var ps := RecordPositions(keys, values);
    assert k in ps;
    var i :| 0 <= i < |ps| && ps[i] == k;
    assert SheetsOf(keys, values)[i] == CitySheet(keys[k], values);
  }

  /** With distinct city names, no two sheets come from the same city. */
  lemma OneSheetPerCity(keys: seq<string>, values: map<string, seq<Fields.Record>>, i: nat, j: nat)
    requires forall c :: c in keys ==> c in values
    requires Distinct(keys)
    requires i < j < |SheetsOf(keys, values)|
    ensures keys[RecordPositions(keys, values)[i]] != keys[RecordPositions(keys, values)[j]]
  {
  }

  /** With no city holding records, the export writes no sheet at all. */
  lemma {:induction false} NothingToExport(keys: seq<string>, values: map<string, seq<Fields.Record>>)
    requires forall c :: c in keys ==> c in values && values[c] == []
    ensures SheetsOf(keys, values) == []
  {
    if keys != [] {
      var n := |keys| - 1;
      var init := keys[..n];
      assert values[keys[n]] == [];
      assert forall c :: c in init ==> c in keys;
      NothingToExport(init, values);
      assert SheetsOf(keys, values) == SheetsOf(init, values);
    }
  }

  /** The state name as it appears in file names: spaces become '_'. */
  function FileStateName(stateName: string): (r: string)
    ensures |r| == |stateName| && ' ' !in r
  {
    ReplaceChar(stateName, ' ', '_')
  }

  /** main.py's file name `{code}_{state}_{timestamp}.xlsx`, written in the working directory. */
  function StateFileName(code: string, stateName: string, timestamp: string): (name: string)
    ensures StartsWith(name, code + "_") && EndsWith(name, ".xlsx")
  {
    var name := code + "_" + FileStateName(stateName) + "_" + timestamp + ".xlsx";
    assert name[..|code + "_"|] == code + "_";
    assert name[|name| - 5..] == ".xlsx";
    name
  }

  /** `f"_batch{batch_num}" if batch_num else ""` */
  function BatchSuffix(batchNum: nat): (suffix: string)
    ensures batchNum == 0 <==> suffix == []
  {
    if batchNum != 0 then "_batch" + NatToString(batchNum) else ""
  }

  /** main_final.py's base name `{code}_{state}{_batchN}_{timestamp}.xlsx`. */
  function BatchBaseName(code: string, stateName: string, batchNum: nat, timestamp: string): (name: string)
    ensures StartsWith(name, code + "_") && EndsWith(name, ".xlsx")
  {
    var name := code + "_" + FileStateName(stateName) + BatchSuffix(batchNum) + "_" + timestamp + ".xlsx";
    assert name[..|code + "_"|] == code + "_";
    assert name[|name| - 5..] == ".xlsx";
    name
  }

  /** main_final.py's path: the base name inside the output directory. */
  function BatchFilePath(code: string, stateName: string, batchNum: nat, timestamp: string): (path: string)
    ensures StartsWith(path, OutputDir + "/" + code + "_") && EndsWith(path, ".xlsx")
  {
    var base := BatchBaseName(code, stateName, batchNum, timestamp);
    var path := OutputDir + "/" + base;
    assert path[..|OutputDir + "/"|] == OutputDir + "/";
    assert path[|OutputDir + "/"|..] == base;
    assert path[|path| - 5..] == base[|base| - 5..];
    path
  }
}
