/**
 * `load_and_combine_results`: scans a results directory for CSV files whose
 * names hold a keyword, tags every row with the model name taken from the
 * file name, routes `_pos.csv` and `_neg.csv` files into two tables, and
 * builds a third table holding both.
 *
 * The directory is given as its listing: each file name paired with the rows
 * reading it yields, or `None` when reading it fails.
 */
module CsvConcater {
  import opened Wrappers
  import opened PyStr

  /** A CSV row: column name to cell text. */
  type Row = map<string, string>

  /** A data frame, as its rows in order. */
  type Frame = seq<Row>

  /** One name from the directory listing and the outcome of reading that file. */
  datatype DirEntry = DirEntry(name: string, contents: Option<Frame>)

  /** The result directory: either it does not exist, or it lists its files in order. */
  datatype Directory = Missing | Listing(entries: seq<DirEntry>)

  /** The three returned frames: positive rows, negative rows, and all rows. */
  datatype Tables = Tables(pos: Frame, neg: Frame, all: Frame)

  /** The `ValueError` that `split` raises when the keyword is empty. */
  datatype LoadError = EmptySeparator

  /** The two lists a file can be appended to. */
  datatype Table = PosTable | NegTable

  const ModelColumn: string := "model"
  const CsvSuffix: string := ".csv"
  const PosSuffix: string := "_pos.csv"
  const NegSuffix: string := "_neg.csv"

  const NoTables: Tables := Tables([], [], [])

  /** A listed file is processed when its name contains the keyword and ends in `.csv`. */
  predicate IsSelected(name: string, keyword: string) {
    Contains(name, keyword) && EndsWith(name, CsvSuffix)
  }

  /** The files kept by the filter, in listing order. */
  function SelectFiles(entries: seq<DirEntry>, keyword: string): (r: seq<DirEntry>)
    ensures forall e :: e in r <==> e in entries && IsSelected(e.name, keyword)
  {
    if entries == [] then []
    else if IsSelected(entries[0].name, keyword) then [entries[0]] + SelectFiles(entries[1..], keyword)
    else SelectFiles(entries[1..], keyword)
  }

  /** Filtering a listing made of two parts filters each part and keeps them in order. */
  lemma {:induction false} SelectFilesAppend(a: seq<DirEntry>, b: seq<DirEntry>, keyword: string)
    ensures SelectFiles(a + b, keyword) == SelectFiles(a, keyword) + SelectFiles(b, keyword)
  {
    if a == [] {
      assert a + b == b;
    } else {
      assert (a + b)[0] == a[0];
      assert (a + b)[1..] == a[1..] + b;
      SelectFilesAppend(a[1..], b, keyword);
    }
  }

  /**
   * The list a file name routes to: `_pos.csv` to the positive list, else
   * `_neg.csv` to the negative list, else none.
   */
  function Route(name: string): (t: Option<Table>) {
    if EndsWith(name, PosSuffix) then Some(PosTable)
    else if EndsWith(name, NegSuffix) then Some(NegTable)
    else None
  }

  /** The two suffixes exclude each other, so each list receives exactly the names with its suffix. */
  lemma RouteBySuffix(name: string)
    ensures Route(name) == Some(PosTable) <==> EndsWith(name, PosSuffix)
    ensures Route(name) == Some(NegTable) <==> EndsWith(name, NegSuffix)
  {
  }

  /** `df['model'] = model`: every row gets the model column set to `model`, and no other column changes. */
  function Tag(frame: Frame, model: string): (r: Frame)
    ensures |r| == |frame|
    ensures forall i :: 0 <= i < |r| ==> ModelColumn in r[i] && r[i][ModelColumn] == model
    ensures forall i :: 0 <= i < |r| ==> r[i] - {ModelColumn} == frame[i] - {ModelColumn}
  {
    seq(|frame|, i requires 0 <= i < |frame| => frame[i][ModelColumn := model])
  }

  /** `pd.concat`: the frames' rows one after another. */
  function Concat(frames: seq<Frame>): (rows: Frame) {
    if frames == [] then [] else frames[0] + Concat(frames[1..])
  }

  /** Concatenating two lists of frames gives the rows of the first followed by those of the second. */
  lemma {:induction false} ConcatAppend(xs: seq<Frame>, ys: seq<Frame>)
    ensures Concat(xs + ys) == Concat(xs) + Concat(ys)
  {
    if xs == [] {
      assert xs + ys == ys;
    } else {
      assert (xs + ys)[0] == xs[0];
      assert (xs + ys)[1..] == xs[1..] + ys;
      ConcatAppend(xs[1..], ys);
    }
  }

  /** What one selected file appends to list `t`: its tagged frame, if it can be read and routes to `t`. */
  function RoutedFrame(e: DirEntry, keyword: string, t: Table): (added: seq<Frame>) {
    match e.contents
    case None => []
    case Some(frame) =>
      if Route(e.name) == Some(t) then [Tag(frame, PrefixBefore(e.name, keyword))] else []
  }

  /** The list `t` after processing `files` in order. */
  function RoutedFrames(files: seq<DirEntry>, keyword: string, t: Table): (list: seq<Frame>) {
    if files == [] then [] else RoutedFrame(files[0], keyword, t) + RoutedFrames(files[1..], keyword, t)
  }

  lemma {:induction false} RoutedFramesAppend(a: seq<DirEntry>, b: seq<DirEntry>, keyword: string, t: Table)
    ensures RoutedFrames(a + b, keyword, t) == RoutedFrames(a, keyword, t) + RoutedFrames(b, keyword, t)
  {
    if a == [] {
      assert a + b == b;
    } else {
      assert (a + b)[0] == a[0];
      assert (a + b)[1..] == a[1..] + b;
      RoutedFramesAppend(a[1..], b, keyword, t);
    }
  }

  /** Processing one more file appends what that file contributes. */
  lemma RoutedFramesSnoc(files: seq<DirEntry>, i: nat, keyword: string, t: Table)
    requires i < |files|
    ensures RoutedFrames(files[..i + 1], keyword, t) == RoutedFrames(files[..i], keyword, t) + RoutedFrame(files[i], keyword, t)
  {
    assert files[..i + 1] == files[..i] + [files[i]];
    RoutedFramesAppend(files[..i], [files[i]], keyword, t);
    assert [files[i]][1..] == [];
  }

  /**
   * What `load_and_combine_results` returns, or the error it raises. The
   * model name is split off outside the `try`, so an empty keyword raises at
   * the first selected file.
   */
  function Load(dir: Directory, keyword: string): (r: Result<Tables, LoadError>)
    ensures dir.Missing? ==> r == Success(NoTables)
    ensures r.Failure? ==> dir.Listing? && keyword == ""
    ensures r.Success? ==> r.value.all == r.value.pos + r.value.neg
    ensures r.Success? ==> |r.value.all| == |r.value.pos| + |r.value.neg|
    ensures r.Success? ==> (r.value.all == [] <==> r.value.pos == [] && r.value.neg == [])
  {
    match dir
    case Missing => Success(NoTables)
    case Listing(entries) =>
      var files := SelectFiles(entries, keyword);
      if keyword == "" && files != [] then Failure(EmptySeparator)
      else
        var pos := Concat(RoutedFrames(files, keyword, PosTable));
        var neg := Concat(RoutedFrames(files, keyword, NegTable));
        var all := if !(pos == [] && neg == []) then pos + neg else [];
        Success(Tables(pos, neg, all))
  }

  /** The loader itself: filter the listing, then tag and route each file, skipping unreadable ones. */
  method LoadAndCombineResults(dir: Directory, keyword: string) returns (r: Result<Tables, LoadError>)
    ensures r == Load(dir, keyword)
  {
    if dir.Missing? {
      return Success(NoTables);
    }
    var files := SelectFiles(dir.entries, keyword);
    var posList: seq<Frame> := [];
    var negList: seq<Frame> := [];
    for i := 0 to |files|
      invariant i > 0 ==> keyword != ""
      invariant posList == RoutedFrames(files[..i], keyword, PosTable)
      invariant negList == RoutedFrames(files[..i], keyword, NegTable)
    {
      var file := files[i];
      RoutedFramesSnoc(files, i, keyword, PosTable);
      RoutedFramesSnoc(files, i, keyword, NegTable);
      var modelName := SplitHead(file.name, keyword);
      if modelName.None? {
        return Failure(EmptySeparator);
      }
      match file.contents {
        case None =>
          // The read failed: a warning is printed and the file is skipped.
          assert RoutedFrame(file, keyword, PosTable) == [] && RoutedFrame(file, keyword, NegTable) == [];
        case Some(frame) =>
          var df := Tag(frame, modelName.value);
          var route := Route(file.name);
          if route == Some(PosTable) {
            assert RoutedFrame(file, keyword, PosTable) == [df] && RoutedFrame(file, keyword, NegTable) == [];
            posList := posList + [df];
          } else if route == Some(NegTable) {
            assert RoutedFrame(file, keyword, PosTable) == [] && RoutedFrame(file, keyword, NegTable) == [df];
            negList := negList + [df];
          } else {
            assert RoutedFrame(file, keyword, PosTable) == [] && RoutedFrame(file, keyword, NegTable) == [];
          }
      }
    }
    assert files[..|files|] == files;
    var pos := if posList != [] then Concat(posList) else [];
    var neg := if negList != [] then Concat(negList) else [];
    var all := if !(pos == [] && neg == []) then pos + neg else [];
    r := Success(Tables(pos, neg, all));
  }

  /**
   * With an empty keyword every name contains the keyword, so the call raises
   * exactly when some listed name ends in `.csv`.
   */
  lemma EmptyKeywordRaises(entries: seq<DirEntry>)
    ensures Load(Listing(entries), "").Failure? <==> exists e :: e in entries && EndsWith(e.name, CsvSuffix)
  {
    var files := SelectFiles(entries, "");
    if e :| e in entries && EndsWith(e.name, CsvSuffix) {
      ContainsEmpty(e.name);
      assert e in files;
    }
    if files != [] {
      assert files[0] in files;
    }
  }

  /** A directory of a single file: what that file adds to each table. */
  lemma LoadSingleFile(e: DirEntry, keyword: string)
    requires keyword != ""
    ensures
      var t := Load(Listing([e]), keyword).value;
      var rows := if IsSelected(e.name, keyword) && e.contents.Some?
                  then Tag(e.contents.value, PrefixBefore(e.name, keyword)) else [];
      t.pos == (if EndsWith(e.name, PosSuffix) then rows else []) &&
      t.neg == (if EndsWith(e.name, NegSuffix) then rows else [])
  {
    RouteBySuffix(e.name);
    assert [e][1..] == [];
    assert SelectFiles([e][1..], keyword) == [];
    var files := SelectFiles([e], keyword);
    assert files == if IsSelected(e.name, keyword) then [e] else [];
    if files == [e] {
      assert RoutedFrames(files, keyword, PosTable) == RoutedFrame(e, keyword, PosTable);
      assert RoutedFrames(files, keyword, NegTable) == RoutedFrame(e, keyword, NegTable);
      if e.contents.Some? {
        var df := Tag(e.contents.value, PrefixBefore(e.name, keyword));
        assert Concat([df]) == df + Concat([df][1..]);
        assert [df][1..] == [];
      }
    }
  }

  /**
   * Listing two groups of files one after the other: each table holds the
   * first group's rows followed by the second group's.
   */
  lemma LoadAppend(a: seq<DirEntry>, b: seq<DirEntry>, keyword: string)
    requires keyword != ""
    ensures
      var ta := Load(Listing(a), keyword).value;
      var tb := Load(Listing(b), keyword).value;
      var t := Load(Listing(a + b), keyword).value;
      t.pos == ta.pos + tb.pos && t.neg == ta.neg + tb.neg
  {
    var fa, fb := SelectFiles(a, keyword), SelectFiles(b, keyword);
    SelectFilesAppend(a, b, keyword);
    RoutedFramesAppend(fa, fb, keyword, PosTable);
    RoutedFramesAppend(fa, fb, keyword, NegTable);
    ConcatAppend(RoutedFrames(fa, keyword, PosTable), RoutedFrames(fb, keyword, PosTable));
    ConcatAppend(RoutedFrames(fa, keyword, NegTable), RoutedFrames(fb, keyword, NegTable));
  }

  /** An unreadable file changes no table: the result is as if it were not listed. */
  lemma LoadSkipsUnreadable(a: seq<DirEntry>, name: string, b: seq<DirEntry>, keyword: string)
    requires keyword != ""
    ensures Load(Listing(a + [DirEntry(name, None)] + b), keyword) == Load(Listing(a + b), keyword)
  {
    var x := DirEntry(name, None);
    var tx := Load(Listing([x]), keyword).value;
    LoadSingleFile(x, keyword);
    assert tx.pos == [] && tx.neg == [];
    var ta := Load(Listing(a), keyword).value;
    var tb := Load(Listing(b), keyword).value;
    var tax := Load(Listing(a + [x]), keyword).value;
    LoadAppend(a, [x], keyword);
    assert tax.pos == ta.pos && tax.neg == ta.neg;
    var t1 := Load(Listing(a + [x] + b), keyword).value;
    LoadAppend(a + [x], b, keyword);
    assert t1.pos == ta.pos + tb.pos && t1.neg == ta.neg + tb.neg;
    var t2 := Load(Listing(a + b), keyword).value;
    LoadAppend(a, b, keyword);
    assert t1 == t2;
  }

  /**
   * Every row list `t` receives carries the model column, holding the part
   * before the keyword of the name of a file routed to `t`.
   */
  lemma {:induction false} RoutedRowsTagged(files: seq<DirEntry>, keyword: string, t: Table)
    ensures forall row :: row in Concat(RoutedFrames(files, keyword, t)) ==>
      ModelColumn in row &&
      exists e :: e in files && Route(e.name) == Some(t) && row[ModelColumn] == PrefixBefore(e.name, keyword)
  {
    if files != [] {
      var head := RoutedFrame(files[0], keyword, t);
      var rest := RoutedFrames(files[1..], keyword, t);
      RoutedRowsTagged(files[1..], keyword, t);
      ConcatAppend(head, rest);
      forall row | row in Concat(head)
        ensures ModelColumn in row && Route(files[0].name) == Some(t)
        ensures row[ModelColumn] == PrefixBefore(files[0].name, keyword)
      {
        var df := Tag(files[0].contents.value, PrefixBefore(files[0].name, keyword));
        assert head == [df];
        assert Concat(head) == df + Concat([df][1..]);
        assert [df][1..] == [];
        var i :| 0 <= i < |df| && df[i] == row;
      }
      forall e | e in files[1..] ensures e in files { }
    }
  }

  /**
   * Every returned row is tagged: its model column holds the part before the
   * first occurrence of the keyword in the name of a selected file with the
   * matching suffix.
   */
  lemma LoadRowsTagged(entries: seq<DirEntry>, keyword: string)
    requires keyword != ""
    ensures
      var t := Load(Listing(entries), keyword).value;
      (forall row :: row in t.pos ==>
        ModelColumn in row &&
        exists e :: e in entries && IsSelected(e.name, keyword) && EndsWith(e.name, PosSuffix) &&
          row[ModelColumn] == PrefixBefore(e.name, keyword)) &&
      (forall row :: row in t.neg ==>
        ModelColumn in row &&
        exists e :: e in entries && IsSelected(e.name, keyword) && EndsWith(e.name, NegSuffix) &&
          row[ModelColumn] == PrefixBefore(e.name, keyword))
  {
    var files := SelectFiles(entries, keyword);
    RoutedRowsTagged(files, keyword, PosTable);
    RoutedRowsTagged(files, keyword, NegTable);
    forall e | e in files ensures Route(e.name) == Some(PosTable) <==> EndsWith(e.name, PosSuffix)
      ensures Route(e.name) == Some(NegTable) <==> EndsWith(e.name, NegSuffix)
    {
      RouteBySuffix(e.name);
    }
  }
}
