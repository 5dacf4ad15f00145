/** The five admission-page parsers: the summary table of the exam and techreg pages (read by a
  * row counter), the admission rows, and the nested tables of school entries on the cross and
  * vtech pages. Text recognition of an image is the parameter `ocr`. */
module AdmissionParsers {
  import opened Wrappers
  import opened Utils
  import opened Page
  import opened Records
  import opened WebParser

  // ---------------------------------------------------------------------------
  // The summary table

  /** The keys of the dictionary `parse_info` fills. */
  datatype InfoKey = Weights | Order | GeneralGrade | NativeGrade | VeteranGrade | OverseaGrade

  /** The cleaned text of the last cell of a row (`[-1]`), empty for a row without cells. */
  function LastText(row: Row): string {
    if row == [] then "" else CleanString(row[|row| - 1].text)
  }

  /** Grade and tie-break order, read from the general students' row. */
  function GradeOrder(t: string): seq<string> {
    CleanSplitOf(t, ' ', 1)
  }

  /** The summary row each key is read from. */
  function ExamKeyRow(k: InfoKey): nat {
    match k
    case Weights => 1
    case GeneralGrade => 2
    case Order => 2
    case NativeGrade => 3
    case VeteranGrade => 4
    case OverseaGrade => 5
  }

  /** What a key holds when read from its row: the last cell's text, or for the general row its
    * first token (the grade) and its last token (the order). */
  function ExamValue(k: InfoKey, row: Row): string {
    var go := GradeOrder(LastText(row));
    match k
    case GeneralGrade => if go == [] then "" else go[0]
    case Order => if go == [] then "" else go[|go| - 1]
    case _ => LastText(row)
  }

  /** What the exam `parse_info` reads from the row the counter is at: weights at 1, grade and
    * order at 2, the native, veteran and overseas grades at 3 to 5, nothing elsewhere. A row
    * it reads must have a cell, and the general row a token. */
  function ExamInfoRow(i: nat, row: Row): Result<map<InfoKey, string>> {
    if i == 0 || i > 5 then Ok(map[])
    else if row == [] then Err(IndexError)
    else
      var t := LastText(row);
      if i == 1 then Ok(map[Weights := t])
      else if i == 2 then
        var go := GradeOrder(t);
        if go == [] then Err(IndexError) else Ok(map[GeneralGrade := go[0], Order := go[|go| - 1]])
      else if i == 3 then Ok(map[NativeGrade := t])
      else if i == 4 then Ok(map[VeteranGrade := t])
      else Ok(map[OverseaGrade := t])
  }

  /** Reading a row fails, with IndexError, exactly when the counter is at a row it reads and
    * that row has no cell, or is the general row and has no token. */
  lemma ExamInfoRowFails(i: nat, row: Row)
    ensures var r := ExamInfoRow(i, row);
            && (r.Err? <==> 1 <= i <= 5 && (row == [] || (i == 2 && GradeOrder(LastText(row)) == [])))
            && (r.Err? ==> r.error == IndexError)
  {
  }

  /** A row writes exactly the keys read from it, each with the value read from it. */
  lemma ExamInfoRowKeys(i: nat, row: Row)
    ensures var r := ExamInfoRow(i, row);
            r.Ok? ==> (forall k :: k in r.value <==> ExamKeyRow(k) == i) &&
                      forall k :: k in r.value ==> r.value[k] == ExamValue(k, row)
  {
    var r := ExamInfoRow(i, row);
    if r.Ok? {
      var m := r.value;
      var t := LastText(row);
      if i == 0 || i > 5 {
        assert m == map[];
      } else if i == 1 {
        assert m == map[Weights := t];
      } else if i == 2 {
        var go := GradeOrder(t);
        assert m == map[GeneralGrade := go[0], Order := go[|go| - 1]];
      } else if i == 3 {
        assert m == map[NativeGrade := t];
      } else if i == 4 {
        assert m == map[VeteranGrade := t];
      } else {
        assert m == map[OverseaGrade := t];
      }
      forall k ensures (k in m <==> ExamKeyRow(k) == i) && (k in m ==> m[k] == ExamValue(k, row)) {
        match k
        case Weights => assert ExamKeyRow(k) == 1;
        case GeneralGrade => assert ExamKeyRow(k) == 2;
        case Order => assert ExamKeyRow(k) == 2;
        case NativeGrade => assert ExamKeyRow(k) == 3;
        case VeteranGrade => assert ExamKeyRow(k) == 4;
        case OverseaGrade => assert ExamKeyRow(k) == 5;
      }
    }
  }

  /** The dictionary after a `parse_info` counter loop has passed `rows`, when the row the
    * counter is at (i) adds the keys read(i, row), or raises. */
  function Summary(rows: seq<Row>, read: (nat, Row) -> Result<map<InfoKey, string>>): Result<map<InfoKey, string>> {
    if rows == [] then Ok(map[])
    else match Summary(rows[..|rows| - 1], read)
      case Err(e) => Err(e)
      case Ok(m) =>
        match read(|rows| - 1, rows[|rows| - 1])
        case Err(e) => Err(e)
        case Ok(p) => Ok(m + p)
  }

  /** One more row: the dictionary so far is extended with what that row adds. */
  lemma SummaryNext(rows: seq<Row>, i: nat, read: (nat, Row) -> Result<map<InfoKey, string>>)
    requires i < |rows|
    ensures Summary(rows[..i + 1], read) ==
              match Summary(rows[..i], read)
              case Err(e) => Err(e)
              case Ok(m) => (match read(i, rows[i]) case Err(e) => Err(e) case Ok(p) => Ok(m + p))
  {
    assert rows[..i + 1][..i] == rows[..i];
  }

  /** Once a row has raised, later rows change nothing. */
  lemma {:induction false} SummaryErrSticks(a: seq<Row>, b: seq<Row>, read: (nat, Row) -> Result<map<InfoKey, string>>)
    requires Summary(a, read).Err?
    ensures Summary(a + b, read) == Summary(a, read)
    decreases |b|
  {
    if b == [] {
      assert a + b == a;
    } else {
      assert (a + b)[..|a + b| - 1] == a + b[..|b| - 1];
      SummaryErrSticks(a, b[..|b| - 1], read);
    }
  }

  /** The `while info_row:` loop with its counter i. */
  method ParseSummary(rows: seq<Row>, read: (nat, Row) -> Result<map<InfoKey, string>>)
    returns (r: Result<map<InfoKey, string>>)
    ensures r == Summary(rows, read)
  {
    var result: map<InfoKey, string> := map[];
    var i := 0;
    while i < |rows|
      invariant 0 <= i <= |rows|
      invariant Summary(rows[..i], read) == Ok(result)
    {
      SummaryNext(rows, i, read);
      var p := read(i, rows[i]);
      if p.Err? {
        SummaryErrSticks(rows[..i + 1], rows[i + 1..], read);
        assert rows[..i + 1] + rows[i + 1..] == rows;
        return Err(p.error);
      }
      result := result + p.value;
      i := i + 1;
    }
    assert rows[..|rows|] == rows;
    r := Ok(result);
  }

  /** The loop ends without exception exactly when no row raises. */
  lemma {:induction false} SummaryOk(rows: seq<Row>, read: (nat, Row) -> Result<map<InfoKey, string>>)
    ensures Summary(rows, read).Ok? <==> forall i :: 0 <= i < |rows| ==> read(i, rows[i]).Ok?
  {
    if rows != [] {
      var n := |rows|;
      var init := rows[..n - 1];
      SummaryOk(init, read);
      assert Summary(rows, read).Ok? <==> Summary(init, read).Ok? && read(n - 1, rows[n - 1]).Ok?;
      if Summary(rows, read).Ok? {
        forall i | 0 <= i < n ensures read(i, rows[i]).Ok? {
          if i < n - 1 { assert init[i] == rows[i]; }
        }
      } else if Summary(init, read).Err? {
        var i :| 0 <= i < |init| && read(i, init[i]).Err?;
        assert init[i] == rows[i];
      }
    }
  }

  /** When key k is written by one row position only (keyRow(k)), with value(k, row), the
    * dictionary holds k exactly when that row has been passed, with the value read from it. */
  lemma {:induction false} SummaryKey(rows: seq<Row>, read: (nat, Row) -> Result<map<InfoKey, string>>,
                                      keyRow: InfoKey -> nat, value: (InfoKey, Row) -> string, k: InfoKey)
    requires forall i: nat, row: Row :: read(i, row).Ok? ==>
               (k in read(i, row).value <==> keyRow(k) == i) &&
               (k in read(i, row).value ==> read(i, row).value[k] == value(k, row))
    ensures var r := Summary(rows, read);
            r.Ok? ==> (k in r.value <==> keyRow(k) < |rows|) &&
                      (k in r.value ==> r.value[k] == value(k, rows[keyRow(k)]))
  {
    if rows != [] && Summary(rows, read).Ok? {
      var n := |rows|;
      var init := rows[..n - 1];
      SummaryKey(init, read, keyRow, value, k);
      var m := Summary(init, read).value;
      var p := read(n - 1, rows[n - 1]).value;
      assert Summary(rows, read).value == m + p;
      if k !in p && k in m {
        assert init[keyRow(k)] == rows[keyRow(k)];
      }
    }
  }

  /** The dictionary the exam `parse_info` builds. */
  function ExamInfo(rows: seq<Row>): Result<map<InfoKey, string>> {
    Summary(rows, ExamInfoRow)
  }

  /** The exam `parse_info`. */
  method ParseExamInfo(rows: seq<Row>) returns (r: Result<map<InfoKey, string>>)
    ensures r == ExamInfo(rows)
  {
    r := ParseSummary(rows, ExamInfoRow);
  }

  /** The summary is read without exception exactly when every row it reads does. */
  lemma ExamInfoOk(rows: seq<Row>)
    ensures ExamInfo(rows).Ok? <==> forall i :: 0 <= i < |rows| ==> ExamInfoRow(i, rows[i]).Ok?
  {
    SummaryOk(rows, ExamInfoRow);
  }

  /** After the loop the dictionary holds key k exactly when k's row is among the rows, with the
    * value read from that row: a later row never overwrites an earlier one's key. */
  lemma ExamInfoKey(rows: seq<Row>, k: InfoKey)
    ensures var r := ExamInfo(rows);
            r.Ok? ==> (k in r.value <==> ExamKeyRow(k) < |rows|) &&
                      (k in r.value ==> r.value[k] == ExamValue(k, rows[ExamKeyRow(k)]))
  {
    forall i: nat, row: Row | ExamInfoRow(i, row).Ok?
      ensures k in ExamInfoRow(i, row).value <==> ExamKeyRow(k) == i
      ensures k in ExamInfoRow(i, row).value ==> ExamInfoRow(i, row).value[k] == ExamValue(k, row)
    {
      ExamInfoRowKeys(i, row);
    }
    SummaryKey(rows, ExamInfoRow, ExamKeyRow, ExamValue, k);
  }

  lemma ExamInfoKeys(rows: seq<Row>)
    ensures ExamInfo(rows).Ok? ==> forall k :: k in ExamInfo(rows).value <==> ExamKeyRow(k) < |rows|
    ensures ExamInfo(rows).Ok? ==>
              forall k :: k in ExamInfo(rows).value ==> ExamInfo(rows).value[k] == ExamValue(k, rows[ExamKeyRow(k)])
  {
    forall k {
      ExamInfoKey(rows, k);
    }
  }

  // ---------------------------------------------------------------------------
  // Admission rows of the exam and star pages

  /** One row of the exam or star list: a five-cell row names a candidate. The school cell is
    * unpacked first (ValueError unless the pattern yields two parts), then the ticket (first
    * token of the third cell) and the exam area (its last token) are read. */
  function ExamAdmissionRow(row: Row): (r: Result<seq<ExamAdmission>>)
    ensures r.Ok? ==> |r.value| == (if FiveCells(row) then 1 else 0)
    ensures |row| == 5 ==>
              var tokens := CleanSplitOf(row[2].text, ' ', -1); var sd := SplitSchoolDepartment(row[4].text);
              && (r.Err? <==> |sd| != 2 || tokens == [])
              && (|sd| != 2 ==> r == Err(ValueError))
              && (|sd| == 2 && tokens == [] ==> r == Err(IndexError))
              && (r.Ok? ==> r.value[0] == ExamAdmission(tokens[0], tokens[|tokens| - 1], sd[0], sd[1]))
  {
    if |row| != 5 then Ok([])
    else
      var tokens := CleanSplitOf(row[2].text, ' ', -1);
      var sd := SplitSchoolDepartment(row[4].text);
      if |sd| != 2 then Err(ValueError)
      else if tokens == [] then Err(IndexError)
      else Ok([ExamAdmission(tokens[0], tokens[|tokens| - 1], sd[0], sd[1])])
  }

  /** StarAdmissionListParser reads its rows as the exam list does. */
  function StarAdmissionRow(row: Row): (r: Result<seq<StarAdmission>>)
    ensures r.Ok? ==> |r.value| == (if FiveCells(row) then 1 else 0)
    ensures |row| == 5 ==>
              var tokens := CleanSplitOf(row[2].text, ' ', -1); var sd := SplitSchoolDepartment(row[4].text);
              && (r.Err? <==> |sd| != 2 || tokens == [])
              && (|sd| != 2 ==> r == Err(ValueError))
              && (|sd| == 2 && tokens == [] ==> r == Err(IndexError))
              && (r.Ok? ==> r.value[0] == StarAdmission(tokens[0], tokens[|tokens| - 1], sd[0], sd[1]))
  {
    if |row| != 5 then Ok([])
    else
      var tokens := CleanSplitOf(row[2].text, ' ', -1);
      var sd := SplitSchoolDepartment(row[4].text);
      if |sd| != 2 then Err(ValueError)
      else if tokens == [] then Err(IndexError)
      else Ok([StarAdmission(tokens[0], tokens[|tokens| - 1], sd[0], sd[1])])
  }

  /** Every key the exam detail looks up is present. */
  predicate HasExamKeys(info: map<InfoKey, string>) {
    Weights in info && Order in info && GeneralGrade in info && NativeGrade in info && VeteranGrade in info &&
    OverseaGrade in info
  }

  /** ExamAdmissionListParser.parse: the summary table, then the table after it, then the
    * detail built from the dictionary (KeyError for a key the summary did not write). */
  function ExamDetailOf(page: Option<Document>): Result<ExamAdmissionDetail> {
    match Main(page)
    case Err(e) => Err(e)
    case Ok(mc) =>
      if mc.first.None? then Err(AttributeError)
      else match ExamInfo(mc.first.value)
        case Err(e) => Err(e)
        case Ok(info) =>
          if mc.second.None? then Err(AttributeError)
          else match Collect(mc.second.value, ExamAdmissionRow)
            case Err(e) => Err(e)
            case Ok(xs) => ExamDetailFrom(info, xs)
  }

  /** The `ExamAdmissionDetailModel(...)` call: each key looked up in turn. */
  function ExamDetailFrom(info: map<InfoKey, string>, xs: seq<ExamAdmission>): Result<ExamAdmissionDetail> {
    if !HasExamKeys(info) then Err(KeyError)
    else Ok(ExamAdmissionDetail(info[Weights], info[Order], info[GeneralGrade], info[NativeGrade],
                                info[VeteranGrade], info[OverseaGrade], xs))
  }

  method ParseExamDetail(page: Option<Document>) returns (r: Result<ExamAdmissionDetail>)
    ensures r == ExamDetailOf(page)
  {
    var mc := Main(page);
    if mc.Err? { return Err(mc.error); }
    if mc.value.first.None? { return Err(AttributeError); }
    var info := ParseExamInfo(mc.value.first.value);
    if info.Err? { return Err(info.error); }
    if mc.value.second.None? { return Err(AttributeError); }
    var xs := CollectLoop(mc.value.second.value, ExamAdmissionRow);
    if xs.Err? { return Err(xs.error); }
    var m := info.value;
    if !HasExamKeys(m) { return Err(KeyError); }
    r := Ok(ExamAdmissionDetail(m[Weights], m[Order], m[GeneralGrade], m[NativeGrade], m[VeteranGrade], m[OverseaGrade],
                                xs.value));
  }

  /** The detail built from a summary the loop read without exception: the summary must have
    * six rows (with fewer, KeyError), and each grade comes from its own summary row. */
  lemma ExamDetailFromSummary(rows: seq<Row>, xs: seq<ExamAdmission>)
    requires ExamInfo(rows).Ok?
    ensures var r := ExamDetailFrom(ExamInfo(rows).value, xs);
            && (r.Ok? <==> |rows| >= 6)
            && (|rows| < 6 ==> r == Err(KeyError))
            && (r.Ok? ==>
                  && r.value.weights == ExamValue(Weights, rows[1])
                  && GradeOrder(LastText(rows[2])) != []
                  && r.value.generalGrade == ExamValue(GeneralGrade, rows[2])
                  && r.value.order == ExamValue(Order, rows[2])
                  && r.value.nativeGrade == ExamValue(NativeGrade, rows[3])
                  && r.value.veteranGrade == ExamValue(VeteranGrade, rows[4])
                  && r.value.overseaGrade == ExamValue(OverseaGrade, rows[5])
                  && r.value.admissionList == xs)
  {
    ExamInfoKey(rows, Weights);
    ExamInfoKey(rows, GeneralGrade);
    ExamInfoKey(rows, Order);
    ExamInfoKey(rows, NativeGrade);
    ExamInfoKey(rows, VeteranGrade);
    ExamInfoKey(rows, OverseaGrade);
    assert ExamKeyRow(Weights) == 1 && ExamKeyRow(GeneralGrade) == 2 && ExamKeyRow(Order) == 2;
    assert ExamKeyRow(NativeGrade) == 3 && ExamKeyRow(VeteranGrade) == 4 && ExamKeyRow(OverseaGrade) == 5;
    if |rows| >= 6 {
      ExamInfoOk(rows);
      assert ExamInfoRow(2, rows[2]).Ok?;
      ExamInfoRowFails(2, rows[2]);
    }
  }

  /** One candidate per five-cell row, in order, read from that row. */
  lemma ExamAdmissionsFromRows(rows: seq<Row>)
    ensures var r := Collect(rows, ExamAdmissionRow); var kept := Filter(rows, FiveCells);
            r.Ok? ==> |r.value| == |kept| &&
                      forall k :: 0 <= k < |kept| ==> |kept[k]| == 5 && ExamAdmissionRow(kept[k]) == Ok([r.value[k]])
  {
    CollectSingles(rows, ExamAdmissionRow, FiveCells);
    var kept := Filter(rows, FiveCells);
    forall k | 0 <= k < |kept| ensures |kept[k]| == 5 { assert kept[k] in kept; }
  }

  /** StarAdmissionListParser.parse: the rows of the first table after `mainContent`. */
  function StarAdmissionsOf(page: Option<Document>): Result<seq<StarAdmission>> {
    match MainTable(page) case Err(e) => Err(e) case Ok(rows) => Collect(rows, StarAdmissionRow)
  }

  method ParseStarAdmissions(page: Option<Document>) returns (r: Result<seq<StarAdmission>>)
    ensures r == StarAdmissionsOf(page)
  {
    var table := MainTable(page);
    if table.Err? { return Err(table.error); }
    r := CollectLoop(table.value, StarAdmissionRow);
  }

  lemma StarAdmissionsFromRows(rows: seq<Row>)
    ensures var r := Collect(rows, StarAdmissionRow); var kept := Filter(rows, FiveCells);
            r.Ok? ==> |r.value| == |kept| &&
                      forall k :: 0 <= k < |kept| ==> |kept[k]| == 5 && StarAdmissionRow(kept[k]) == Ok([r.value[k]])
  {
    CollectSingles(rows, StarAdmissionRow, FiveCells);
    var kept := Filter(rows, FiveCells);
    forall k | 0 <= k < |kept| ensures |kept[k]| == 5 { assert kept[k] in kept; }
  }

  // ---------------------------------------------------------------------------
  // TechregAdmissionParser

  /** The summary row each techreg key is read from (0: none). */
  function TechregKeyRow(k: InfoKey): nat {
    match k
    case GeneralGrade => 1
    case NativeGrade => 2
    case VeteranGrade => 3
    case OverseaGrade => 4
    case _ => 0
  }

  /** What the techreg `parse_info` reads from the row the counter is at: only a row of four
    * cells counts, and from it the second cell; the counter advances on every row. */
  function TechregInfoRow(i: nat, row: Row): map<InfoKey, string> {
    if |row| != 4 then map[]
    else if i == 1 then map[GeneralGrade := CleanString(row[1].text)]
    else if i == 2 then map[NativeGrade := CleanString(row[1].text)]
    else if i == 3 then map[VeteranGrade := CleanString(row[1].text)]
    else if i == 4 then map[OverseaGrade := CleanString(row[1].text)]
    else map[]
  }

  function TechregInfo(rows: seq<Row>): map<InfoKey, string> {
    if rows == [] then map[]
    else TechregInfo(rows[..|rows| - 1]) + TechregInfoRow(|rows| - 1, rows[|rows| - 1])
  }

  /** The techreg `parse_info` loop. */
  method ParseTechregInfo(rows: seq<Row>) returns (result: map<InfoKey, string>)
    ensures result == TechregInfo(rows)
  {
    result := map[];
    var i := 0;
    while i < |rows|
      invariant 0 <= i <= |rows|
      invariant TechregInfo(rows[..i]) == result
    {
      assert rows[..i + 1][..i] == rows[..i];
      result := result + TechregInfoRow(i, rows[i]);
      i := i + 1;
    }
    assert rows[..|rows|] == rows;
  }

  /** A four-cell row at 1 to 4 writes its own key with its second cell; any other row writes
    * nothing. */
  lemma TechregInfoRowKeys(i: nat, row: Row)
    ensures forall k :: k in TechregInfoRow(i, row) <==> |row| == 4 && 1 <= i && TechregKeyRow(k) == i
    ensures forall k :: k in TechregInfoRow(i, row) ==> TechregInfoRow(i, row)[k] == CleanString(row[1].text)
  {
    if |row| == 4 && 1 <= i <= 4 {
      var k0 := if i == 1 then GeneralGrade else if i == 2 then NativeGrade else if i == 3 then VeteranGrade else OverseaGrade;
      assert TechregInfoRow(i, row) == map[k0 := CleanString(row[1].text)];
      assert TechregKeyRow(k0) == i;
      forall k ensures k in TechregInfoRow(i, row) <==> TechregKeyRow(k) == i {
        if TechregKeyRow(k) == i { assert k == k0; }
      }
    }
  }

  /** A key is written exactly when its row exists and has four cells, and holds that row's
    * second cell: a row of another size is passed over without shifting the later keys. */
  lemma {:induction false} TechregInfoKeys(rows: seq<Row>)
    ensures forall k :: k in TechregInfo(rows) <==>
              1 <= TechregKeyRow(k) < |rows| && |rows[TechregKeyRow(k)]| == 4
    ensures forall k :: k in TechregInfo(rows) ==>
              TechregInfo(rows)[k] == CleanString(rows[TechregKeyRow(k)][1].text)
  {
    if rows != [] {
      var n := |rows|;
      var init := rows[..n - 1];
      TechregInfoKeys(init);
      TechregInfoRowKeys(n - 1, rows[n - 1]);
      var m := TechregInfo(init);
      var p := TechregInfoRow(n - 1, rows[n - 1]);
      assert TechregInfo(rows) == m + p;
      forall k
        ensures k in m + p <==> 1 <= TechregKeyRow(k) < n && |rows[TechregKeyRow(k)]| == 4
      {
        if 1 <= TechregKeyRow(k) < n - 1 {
          assert init[TechregKeyRow(k)] == rows[TechregKeyRow(k)];
        }
      }
      forall k | k in m + p
        ensures (m + p)[k] == CleanString(rows[TechregKeyRow(k)][1].text)
      {
        if k !in p {
          assert init[TechregKeyRow(k)] == rows[TechregKeyRow(k)];
        }
      }
    }
  }

  /** One row of the techreg list: a three-cell row names a candidate, whose third cell splits
    * at its first space into ticket and name (ValueError unless it yields two parts). */
  function TechregAdmissionRow(row: Row): (r: Result<seq<TechregAdmission>>)
    ensures r.Ok? ==> |r.value| == (if ThreeCells(row) then 1 else 0)
    ensures |row| == 3 ==>
              var parts := CleanSplitOf(row[2].text, ' ', 1);
              && (r.Err? <==> |parts| != 2)
              && (r.Err? ==> r.error == ValueError)
              && (r.Ok? ==> r.value[0] == TechregAdmission(parts[0], parts[1]))
  {
    if |row| != 3 then Ok([])
    else
      var parts := CleanSplitOf(row[2].text, ' ', 1);
      if |parts| != 2 then Err(ValueError) else Ok([TechregAdmission(parts[0], parts[1])])
  }

  /** Every key the techreg detail looks up is present. */
  predicate HasTechregKeys(info: map<InfoKey, string>) {
    GeneralGrade in info && NativeGrade in info && VeteranGrade in info && OverseaGrade in info
  }

  function TechregDetailFrom(info: map<InfoKey, string>, xs: seq<TechregAdmission>): Result<TechregAdmissionDetail> {
    if !HasTechregKeys(info) then Err(KeyError)
    else Ok(TechregAdmissionDetail(info[GeneralGrade], info[NativeGrade], info[VeteranGrade], info[OverseaGrade], xs))
  }

  /** TechregAdmissionParser.parse: the summary, the table after it, then the detail. */
  function TechregDetailOf(page: Option<Document>): Result<TechregAdmissionDetail> {
    match Main(page)
    case Err(e) => Err(e)
    case Ok(mc) =>
      if mc.first.None? then Err(AttributeError)
      else
        var info := TechregInfo(mc.first.value);
        if mc.second.None? then Err(AttributeError)
        else match Collect(mc.second.value, TechregAdmissionRow)
          case Err(e) => Err(e)
          case Ok(xs) => TechregDetailFrom(info, xs)
  }

  method ParseTechregDetail(page: Option<Document>) returns (r: Result<TechregAdmissionDetail>)
    ensures r == TechregDetailOf(page)
  {
    var mc := Main(page);
    if mc.Err? { return Err(mc.error); }
    if mc.value.first.None? { return Err(AttributeError); }
    var info := ParseTechregInfo(mc.value.first.value);
    if mc.value.second.None? { return Err(AttributeError); }
    var xs := CollectLoop(mc.value.second.value, TechregAdmissionRow);
    if xs.Err? { return Err(xs.error); }
    if !HasTechregKeys(info) { return Err(KeyError); }
    r := Ok(TechregAdmissionDetail(info[GeneralGrade], info[NativeGrade], info[VeteranGrade], info[OverseaGrade], xs.value));
  }

  /** The techreg detail is built exactly when rows 1 to 4 of the summary all have four cells
    * (KeyError otherwise), and each grade is the second cell of its row. */
  lemma TechregDetailFromSummary(rows: seq<Row>, xs: seq<TechregAdmission>)
    ensures var r := TechregDetailFrom(TechregInfo(rows), xs);
            && (r.Ok? <==> |rows| >= 5 && |rows[1]| == 4 && |rows[2]| == 4 && |rows[3]| == 4 && |rows[4]| == 4)
            && (r.Err? ==> r.error == KeyError)
            && (r.Ok? ==>
                  && r.value.generalGrade == CleanString(rows[1][1].text)
                  && r.value.nativeGrade == CleanString(rows[2][1].text)
                  && r.value.veteranGrade == CleanString(rows[3][1].text)
                  && r.value.overseaGrade == CleanString(rows[4][1].text)
                  && r.value.admissionList == xs)
  {
    var info := TechregInfo(rows);
    assert TechregKeyRow(GeneralGrade) == 1 && TechregKeyRow(NativeGrade) == 2;
    assert TechregKeyRow(VeteranGrade) == 3 && TechregKeyRow(OverseaGrade) == 4;
    TechregInfoKeys(rows);
    if |rows| >= 5 && |rows[1]| == 4 && |rows[2]| == 4 && |rows[3]| == 4 && |rows[4]| == 4 {
      assert HasTechregKeys(info);
    }
    if HasTechregKeys(info) {
      assert |rows| >= 5 by { assert OverseaGrade in info; }
      assert |rows[1]| == 4 by { assert GeneralGrade in info; }
      assert |rows[2]| == 4 by { assert NativeGrade in info; }
      assert |rows[3]| == 4 by { assert VeteranGrade in info; }
      assert |rows[4]| == 4 by { assert OverseaGrade in info; }
    }
  }

  /** One candidate per three-cell row, in order, read from that row. */
  lemma TechregAdmissionsFromRows(rows: seq<Row>)
    ensures var r := Collect(rows, TechregAdmissionRow); var kept := Filter(rows, ThreeCells);
            r.Ok? ==> |r.value| == |kept| &&
                      forall k :: 0 <= k < |kept| ==> |kept[k]| == 3 && TechregAdmissionRow(kept[k]) == Ok([r.value[k]])
  {
    CollectSingles(rows, TechregAdmissionRow, ThreeCells);
    var kept := Filter(rows, ThreeCells);
    forall k | 0 <= k < |kept| ensures |kept[k]| == 3 { assert kept[k] in kept; }
  }

  // ---------------------------------------------------------------------------
  // The school entries of the cross and vtech pages

  /** The outcome of a school entry, from its third cell and the retest date read from it.
    * With a result image: 正取 when the image's parent has class `leftred`, otherwise 備取
    * followed by the recognised image text, and on the vtech page (`prefixed`) the cell's own
    * text in front. Without an image: the retest date. */
  function EntryStatus(ocr: string -> string, c: Cell, date: string, prefixed: bool): (r: Result<string>)
    ensures c.image.None? ==> r == Ok(date)
    ensures c.image.Some? ==>
              (r.Err? <==> c.image.value.parentClass.None? || c.image.value.parentClass.value == [])
    ensures r.Err? ==> r.error == (if c.image.value.parentClass.None? then TypeError else IndexError)
  {
    match c.image
    case None => Ok(date)
    case Some(img) =>
      var prefix := if prefixed then CleanString(c.text) else "";
      match img.parentClass
      case None => Err(TypeError)
      case Some(cls) =>
        if cls == [] then Err(IndexError)
        else
          var admit := CleanString(cls[0]) == "leftred";
          var recognised := CleanString(ocr(img.src));
          Ok(prefix + (if admit then "正取" else "備取" + recognised))
  }

  /** An image whose parent has class `leftred`. */
  predicate Leftred(c: Cell) {
    c.image.Some? && c.image.value.parentClass.Some? && c.image.value.parentClass.value != [] &&
    CleanString(c.image.value.parentClass.value[0]) == "leftred"
  }

  /** An entry admitted on the first list reads 正取 whatever the image holds; an entry on the
    * waiting list reads 備取 and the recognised image text. */
  lemma EntryStatusOutcome(ocr: string -> string, c: Cell, date: string, prefixed: bool)
    requires c.image.Some? && c.image.value.parentClass.Some? && c.image.value.parentClass.value != []
    ensures var prefix := if prefixed then CleanString(c.text) else "";
            && (Leftred(c) ==> EntryStatus(ocr, c, date, prefixed) == Ok(prefix + "正取"))
            && (!Leftred(c) ==> EntryStatus(ocr, c, date, prefixed) == Ok(prefix + ("備取" + CleanString(ocr(c.image.value.src)))))
  {
  }

  /** Recognition matters only for an entry on the waiting list. */
  lemma EntryStatusIgnoresOcr(ocr1: string -> string, ocr2: string -> string, c: Cell, date: string, prefixed: bool)
    requires !(c.image.Some? && c.image.value.parentClass.Some? && c.image.value.parentClass.value != [] && !Leftred(c))
    ensures EntryStatus(ocr1, c, date, prefixed) == EntryStatus(ocr2, c, date, prefixed)
  {
  }

  /** The vtech status is the cross status with the cell's text in front, when there is an
    * image; without one both are the retest date. */
  lemma VtechStatusIsPrefixed(ocr: string -> string, c: Cell, date: string)
    ensures EntryStatus(ocr, c, date, true).Ok? <==> EntryStatus(ocr, c, date, false).Ok?
    ensures EntryStatus(ocr, c, date, true).Ok? ==>
              EntryStatus(ocr, c, date, true).value ==
              (if c.image.Some? then CleanString(c.text) else "") + EntryStatus(ocr, c, date, false).value
  {
    if c.image.None? {
      assert "" + date == date;
    }
  }

  /** A nested row that names a school: three cells, a link, non-empty link text. */
  predicate NamesSchool(row: Row) {
    |row| == 3 && row[1].link.Some? && CleanString(row[1].link.value.text) != []
  }

  /** One row of a candidate's nested table. A three-cell row with non-empty school text makes
    * an entry: the 分發錄取 mark of its first cell, the school and department split from the
    * link text (ValueError unless it yields two parts), and the status; the retest date is read
    * (AttributeError when absent) before the status. */
  function SchoolEntry(ocr: string -> string, row: Row, prefixed: bool): (r: Result<seq<SchoolAdmissionStatus>>)
    ensures r.Ok? ==> |r.value| == (if NamesSchool(row) then 1 else 0)
    ensures |row| == 3 && row[1].link.None? ==> r == Err(AttributeError)
    ensures |row| != 3 ==> r == Ok([])
    ensures |row| == 3 && row[1].link.Some? && CleanString(row[1].link.value.text) == [] ==> r == Ok([])
    ensures NamesSchool(row) ==>
              var sd := SplitSchoolDepartment(CleanString(row[1].link.value.text));
              && (|sd| != 2 ==> r == Err(ValueError))
              && (|sd| == 2 && row[2].retestDate.None? ==> r == Err(AttributeError))
              && (|sd| == 2 && row[2].retestDate.Some? ==>
                    var st := EntryStatus(ocr, row[2], CleanString(row[2].retestDate.value), prefixed);
                    && (r.Ok? <==> st.Ok?)
                    && (r.Ok? ==> r.value[0] == SchoolAdmissionStatus(row[0].admittedMark, sd[0], sd[1], st.value)))
  {
    if |row| != 3 then Ok([])
    else if row[1].link.None? then Err(AttributeError)
    else
      var text := CleanString(row[1].link.value.text);
      if text == [] then Ok([])
      else
        var sd := SplitSchoolDepartment(text);
        if |sd| != 2 then Err(ValueError)
        else if row[2].retestDate.None? then Err(AttributeError)
        else match EntryStatus(ocr, row[2], CleanString(row[2].retestDate.value), prefixed)
          case Err(e) => Err(e)
          case Ok(status) => Ok([SchoolAdmissionStatus(row[0].admittedMark, sd[0], sd[1], status)])
  }

  /** The nested loop's step, as a value the row walk can take. */
  function Entries(ocr: string -> string, prefixed: bool): Row -> Result<seq<SchoolAdmissionStatus>> {
    row => SchoolEntry(ocr, row, prefixed)
  }

  /** One entry per nested row that names a school, in order; rows of another size and rows
    * with empty school text are dropped. */
  lemma SchoolEntriesFromRows(ocr: string -> string, rows: seq<Row>, prefixed: bool)
    ensures var r := Collect(rows, Entries(ocr, prefixed)); var kept := Filter(rows, NamesSchool);
            r.Ok? ==> |r.value| == |kept| &&
                      forall k :: 0 <= k < |kept| ==> NamesSchool(kept[k]) && SchoolEntry(ocr, kept[k], prefixed) == Ok([r.value[k]])
  {
    CollectSingles(rows, Entries(ocr, prefixed), NamesSchool);
    var kept := Filter(rows, NamesSchool);
    forall k | 0 <= k < |kept| ensures NamesSchool(kept[k]) { assert kept[k] in kept; }
  }

  // ---------------------------------------------------------------------------
  // CrossAdmissionListParser and VtechAdmissionParser

  /** One row of the cross list: a five-cell row is a candidate. The ticket is the recognised
    * text of the third cell's image, the exam area the last `:` piece of its link text, and
    * the schools the entries of the table after the fifth cell; the name is left empty. */
  function CrossAdmissionRow(ocr: string -> string, row: Row): (r: Result<seq<CrossAdmission>>)
    ensures r.Ok? ==> |r.value| == (if FiveCells(row) then 1 else 0)
    ensures |row| == 5 && (row[2].image.None? || row[2].link.None? || row[4].nested.None?) ==> r.Err?
    ensures r.Ok? && |row| == 5 ==>
              var area := CleanSplitOf(row[2].link.value.text, ':', -1);
              && area != []
              && r.value[0].ticket == CleanString(ocr(row[2].image.value.src))
              && r.value[0].examArea == area[|area| - 1]
              && r.value[0].name == ""
              && Collect(row[4].nested.value, Entries(ocr, false)) == Ok(r.value[0].schools)
  {
    if |row| != 5 then Ok([])
    else if row[2].image.None? then Err(AttributeError)
    else
      var ticket := CleanString(ocr(row[2].image.value.src));
      if row[2].link.None? then Err(AttributeError)
      else
        var area := CleanSplitOf(row[2].link.value.text, ':', -1);
        if area == [] then Err(IndexError)
        else if row[4].nested.None? then Err(AttributeError)
        else match Collect(row[4].nested.value, Entries(ocr, false))
          case Err(e) => Err(e)
          case Ok(ss) => Ok([CrossAdmission(ticket, area[|area| - 1], "", ss)])
  }

  /** One row of the vtech list: as the cross list without an exam area, with prefixed
    * statuses. */
  function VtechAdmissionRow(ocr: string -> string, row: Row): (r: Result<seq<VtechAdmission>>)
    ensures r.Ok? ==> |r.value| == (if FiveCells(row) then 1 else 0)
    ensures |row| == 5 && (row[2].image.None? || row[4].nested.None?) ==> r.Err?
    ensures r.Ok? && |row| == 5 ==>
              && r.value[0].ticket == CleanString(ocr(row[2].image.value.src))
              && r.value[0].name == ""
              && Collect(row[4].nested.value, Entries(ocr, true)) == Ok(r.value[0].schools)
  {
    if |row| != 5 then Ok([])
    else if row[2].image.None? then Err(AttributeError)
    else
      var ticket := CleanString(ocr(row[2].image.value.src));
      if row[4].nested.None? then Err(AttributeError)
      else match Collect(row[4].nested.value, Entries(ocr, true))
        case Err(e) => Err(e)
        case Ok(ss) => Ok([VtechAdmission(ticket, "", ss)])
  }

  function CrossRows(ocr: string -> string): Row -> Result<seq<CrossAdmission>> {
    row => CrossAdmissionRow(ocr, row)
  }

  function VtechRows(ocr: string -> string): Row -> Result<seq<VtechAdmission>> {
    row => VtechAdmissionRow(ocr, row)
  }

  /** CrossAdmissionListParser.parse: the rows of the first table inside `mainContent`. */
  function CrossAdmissionsOf(ocr: string -> string, page: Option<Document>): Result<seq<CrossAdmission>> {
    match MainTable(page) case Err(e) => Err(e) case Ok(rows) => Collect(rows, CrossRows(ocr))
  }

  function VtechAdmissionsOf(ocr: string -> string, page: Option<Document>): Result<seq<VtechAdmission>> {
    match MainTable(page) case Err(e) => Err(e) case Ok(rows) => Collect(rows, VtechRows(ocr))
  }

  /** The body of the outer loop of CrossAdmissionListParser.parse, with its nested loop. */
  method ParseCrossRow(ocr: string -> string, row: Row) returns (r: Result<seq<CrossAdmission>>)
    ensures r == CrossAdmissionRow(ocr, row)
  {
    if |row| != 5 { return Ok([]); }
    if row[2].image.None? { return Err(AttributeError); }
    var ticket := CleanString(ocr(row[2].image.value.src));
    if row[2].link.None? { return Err(AttributeError); }
    var area := CleanSplit(row[2].link.value.text, ':', -1);
    if area == [] { return Err(IndexError); }
    if row[4].nested.None? { return Err(AttributeError); }
    var ss := CollectLoop(row[4].nested.value, Entries(ocr, false));
    if ss.Err? { return Err(ss.error); }
    r := Ok([CrossAdmission(ticket, area[|area| - 1], "", ss.value)]);
  }

  method ParseCrossAdmissions(ocr: string -> string, page: Option<Document>) returns (r: Result<seq<CrossAdmission>>)
    ensures r == CrossAdmissionsOf(ocr, page)
  {
    var table := MainTable(page);
    if table.Err? { return Err(table.error); }
    var rows := table.value;
    var acc: seq<CrossAdmission> := [];
    for i := 0 to |rows|
      invariant Collect(rows[..i], CrossRows(ocr)) == Ok(acc)
    {
      CollectNext(rows, i, CrossRows(ocr));
      var x := ParseCrossRow(ocr, rows[i]);
      if x.Err? {
        CollectErrSticks(rows[..i + 1], rows[i + 1..], CrossRows(ocr));
        assert rows[..i + 1] + rows[i + 1..] == rows;
        return Err(x.error);
      }
      acc := acc + x.value;
    }
    assert rows[..|rows|] == rows;
    r := Ok(acc);
  }

  method ParseVtechRow(ocr: string -> string, row: Row) returns (r: Result<seq<VtechAdmission>>)
    ensures r == VtechAdmissionRow(ocr, row)
  {
    if |row| != 5 { return Ok([]); }
    if row[2].image.None? { return Err(AttributeError); }
    var ticket := CleanString(ocr(row[2].image.value.src));
    if row[4].nested.None? { return Err(AttributeError); }
    var ss := CollectLoop(row[4].nested.value, Entries(ocr, true));
    if ss.Err? { return Err(ss.error); }
    r := Ok([VtechAdmission(ticket, "", ss.value)]);
  }

  method ParseVtechAdmissions(ocr: string -> string, page: Option<Document>) returns (r: Result<seq<VtechAdmission>>)
    ensures r == VtechAdmissionsOf(ocr, page)
  {
    var table := MainTable(page);
    if table.Err? { return Err(table.error); }
    var rows := table.value;
    var acc: seq<VtechAdmission> := [];
    for i := 0 to |rows|
      invariant Collect(rows[..i], VtechRows(ocr)) == Ok(acc)
    {
      CollectNext(rows, i, VtechRows(ocr));
      var x := ParseVtechRow(ocr, rows[i]);
      if x.Err? {
        CollectErrSticks(rows[..i + 1], rows[i + 1..], VtechRows(ocr));
        assert rows[..i + 1] + rows[i + 1..] == rows;
        return Err(x.error);
      }
      acc := acc + x.value;
    }
    assert rows[..|rows|] == rows;
    r := Ok(acc);
  }

  /** One candidate per five-cell row of the cross list, in order, read from that row. */
  lemma CrossAdmissionsFromRows(ocr: string -> string, rows: seq<Row>)
    ensures var r := Collect(rows, CrossRows(ocr)); var kept := Filter(rows, FiveCells);
            r.Ok? ==> |r.value| == |kept| &&
                      forall k :: 0 <= k < |kept| ==> |kept[k]| == 5 && CrossAdmissionRow(ocr, kept[k]) == Ok([r.value[k]])
  {
    CollectSingles(rows, CrossRows(ocr), FiveCells);
    var kept := Filter(rows, FiveCells);
    forall k | 0 <= k < |kept| ensures |kept[k]| == 5 { assert kept[k] in kept; }
  }

  lemma VtechAdmissionsFromRows(ocr: string -> string, rows: seq<Row>)
    ensures var r := Collect(rows, VtechRows(ocr)); var kept := Filter(rows, FiveCells);
            r.Ok? ==> |r.value| == |kept| &&
                      forall k :: 0 <= k < |kept| ==> |kept[k]| == 5 && VtechAdmissionRow(ocr, kept[k]) == Ok([r.value[k]])
  {
    CollectSingles(rows, VtechRows(ocr), FiveCells);
    var kept := Filter(rows, FiveCells);
    forall k | 0 <= k < |kept| ensures |kept[k]| == 5 { assert kept[k] in kept; }
  }
}
