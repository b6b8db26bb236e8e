/**
 * The outer loop of `save_outputs` in src/main.py for one city: for every
 * mode, slice and direction it opens the distances file `save_inputs` wrote
 * and flattens the reply into the points table, then saves the table as the
 * city's results file.
 */
module SaveOutputs {
  import opened Wrappers
  import DistanceMatrixClient
  import BatchDriver
  import ResultTable

  type Payload = DistanceMatrixClient.Payload
  type Cells = ResultTable.Cells

  /** One distances file the loop opens: its mode, direction and slice. */
  datatype Read = Read(mode: string, direction: string, i: nat, iEnd: nat)

  /** Why `save_outputs` raises before saving the table. */
  datatype OutputError =
    | FileNotFound(file: string)   // `open` of a distances file that is not there
    | ReplyRejected(file: string)  // an assertion about the reply in that file fails

  /** The table saved for a city, and the file it goes to. */
  datatype Saved = Saved(file: string, table: Cells)

  /** The files of one slice, arrival before departure. */
  function DirectionReads(mode: string, i: nat, iEnd: nat): seq<Read>
  {
    [Read(mode, BatchDriver.Directions[0], i, iEnd), Read(mode, BatchDriver.Directions[1], i, iEnd)]
  }

  /** For one mode, the files of each slice in turn. */
  function SliceReads(mode: string, slices: seq<(nat, nat)>): seq<Read>
  {
    if |slices| == 0 then []
    else DirectionReads(mode, slices[0].0, slices[0].1) + SliceReads(mode, slices[1..])
  }

  function ModeReads(modes: seq<string>, n: nat): seq<Read>
  {
    if |modes| == 0 then [] else SliceReads(modes[0], BatchDriver.Slices(n)) + ModeReads(modes[1..], n)
  }

  /** The files `save_outputs` opens for a table of `n` points, in order. */
  function CityReads(n: nat): seq<Read>
  {
    ModeReads(BatchDriver.DriverModes, n)
  }

  function ReadFile(slug: string, r: Read): string
  {
    BatchDriver.DistancesFile(slug, r.mode, r.direction, r.i, r.iEnd)
  }

  function ReadFiles(slug: string, plan: seq<Read>): (files: seq<string>)
    ensures |files| == |plan| && forall k :: 0 <= k < |plan| ==> files[k] == ReadFile(slug, plan[k])
  {
    seq(|plan|, k requires 0 <= k < |plan| => ReadFile(slug, plan[k]))
  }

  lemma ReadFilesConcat(slug: string, a: seq<Read>, b: seq<Read>)
    ensures ReadFiles(slug, a + b) == ReadFiles(slug, a) + ReadFiles(slug, b)
  {
    assert forall k :: 0 <= k < |a + b| ==> (a + b)[k] == if k < |a| then a[k] else b[k - |a|];
  }

  /** The assertions `save_outputs` makes about a reply hold. */
  predicate Accepted(direction: string, payload: Payload)
  {
    if direction == "arrival" then
      forall j :: 0 <= j < |payload.rows| ==> ResultTable.Complete(payload.rows[j].elements)
    else
      |payload.rows| == 1 && ResultTable.Complete(payload.rows[0].elements)
  }

  /** One distances file read into the table. */
  function ApplyRead(cells: Cells, slug: string, files: map<string, Payload>, r: Read): Result<Cells, OutputError>
  {
    var name := ReadFile(slug, r);
    if name !in files then Failure(FileNotFound(name))
    else
      var u := if r.direction == "arrival" then ResultTable.ReadArrival(cells, r.i, r.mode, files[name])
               else ResultTable.ReadDeparture(cells, r.i, r.mode, files[name]);
      if u.ok then Success(u.cells) else Failure(ReplyRejected(name))
  }

  /** The files read one after the other, stopping at the first that raises. */
  function Outputs(cells: Cells, slug: string, files: map<string, Payload>, plan: seq<Read>): Result<Cells, OutputError>
    decreases |plan|
  {
    if |plan| == 0 then Success(cells)
    else
      match ApplyRead(cells, slug, files, plan[0])
      case Failure(e) => Failure(e)
      case Success(next) => Outputs(next, slug, files, plan[1..])
  }

  /** The rest of the files read after a first step, unless that step raised. */
  function Continue(first: Result<Cells, OutputError>, slug: string, files: map<string, Payload>, rest: seq<Read>): Result<Cells, OutputError>
  {
    match first
    case Failure(e) => Failure(e)
    case Success(next) => Outputs(next, slug, files, rest)
  }

  // ---------------------------------------------------------------------------
  // The loop as it runs: slices follow `len(df)`
  // ---------------------------------------------------------------------------

  /**
   * `list(range(from, n, 100))`: empty when `from >= n`, and otherwise it
   * starts at `from`, steps by 100 and stops at the last start below `n`.
   */
  function Starts(from: nat, n: nat): (s: seq<nat>)
    ensures forall k :: 0 <= k < |s| ==> from <= s[k] < n
    ensures forall k :: 0 <= k < |s| - 1 ==> s[k + 1] == s[k] + BatchDriver.SliceSize
    decreases n - from
  {
    if from >= n then [] else [from] + Starts(from + BatchDriver.SliceSize, n)
  }

  /**
   * No start is missing: the starts are empty exactly when `from >= n`, and
   * otherwise begin at `from` and run until the last one within 100 of `n`.
   */
  lemma {:induction false} StartsComplete(from: nat, n: nat)
    ensures from >= n ==> Starts(from, n) == []
    ensures from < n ==> var s := Starts(from, n);
      |s| > 0 && s[0] == from && n <= s[|s| - 1] + BatchDriver.SliceSize
    decreases n - from
  {
    if from < n {
      StartsComplete(from + BatchDriver.SliceSize, n);
    }
  }

  /**
   * The slice loop of one mode over starts fixed when the mode begins: each
   * slice ends at `min(i + 100, len(df))` for the table as it is when that
   * slice begins, and its two files are read in turn.
   */
  function SliceOutputs(cells: Cells, slug: string, files: map<string, Payload>, mode: string, starts: seq<nat>)
    : Result<Cells, OutputError>
    decreases |starts|
  {
    if |starts| == 0 then Success(cells)
    else
      var i := starts[0];
      match Outputs(cells, slug, files, DirectionReads(mode, i, BatchDriver.SliceEnd(i, ResultTable.Len(cells))))
      case Failure(e) => Failure(e)
      case Success(next) => SliceOutputs(next, slug, files, mode, starts[1..])
  }

  /** The mode loop: each mode's starts are `range(0, len(df), 100)` for the table as that mode begins. */
  function ModeOutputs(cells: Cells, slug: string, files: map<string, Payload>, modes: seq<string>): Result<Cells, OutputError>
    decreases |modes|
  {
    if |modes| == 0 then Success(cells)
    else
      match SliceOutputs(cells, slug, files, modes[0], Starts(0, ResultTable.Len(cells)))
      case Failure(e) => Failure(e)
      case Success(next) => ModeOutputs(next, slug, files, modes[1..])
  }

  /** What `save_outputs` saves for a city whose table read from the points file is `points`, or why it raises. */
  function CityOutputs(city: BatchDriver.City, points: Cells, files: map<string, Payload>): Result<Saved, OutputError>
  {
    var slug := BatchDriver.Slug(city.name);
    match ModeOutputs(points, slug, files, BatchDriver.DriverModes)
    case Failure(e) => Failure(e)
    case Success(table) => Success(Saved(BatchDriver.ResultsFile(slug), table))
  }

  lemma {:induction false} OutputsConcat(cells: Cells, slug: string, files: map<string, Payload>, a: seq<Read>, b: seq<Read>)
    ensures Outputs(cells, slug, files, a + b) == Continue(Outputs(cells, slug, files, a), slug, files, b)
    decreases |a|
  {
    if |a| > 0 {
      assert (a + b)[0] == a[0] && (a + b)[1..] == a[1..] + b;
      var step := ApplyRead(cells, slug, files, a[0]);
      if step.Success? {
        OutputsConcat(step.value, slug, files, a[1..], b);
      }
    } else {
      assert a + b == b;
    }
  }

  /** One read accepts exactly when its file is there and its reply passes the assertions. */
  lemma ApplyReadSucceeds(cells: Cells, slug: string, files: map<string, Payload>, r: Read)
    ensures ApplyRead(cells, slug, files, r).Success? <==>
      ReadFile(slug, r) in files && Accepted(r.direction, files[ReadFile(slug, r)])
  {
    var name := ReadFile(slug, r);
    if name in files {
      ResultTable.ReadArrivalEffect(cells, r.i, r.mode, files[name]);
      ResultTable.ReadDepartureEffect(cells, r.i, r.mode, files[name]);
    }
  }

  /**
   * The loop completes exactly when every file it opens is there and every
   * reply passes the assertions, whatever the table held before.
   */
  lemma {:induction false} OutputsSucceed(cells: Cells, slug: string, files: map<string, Payload>, plan: seq<Read>)
    ensures Outputs(cells, slug, files, plan).Success? <==>
      forall k :: 0 <= k < |plan| ==>
        ReadFile(slug, plan[k]) in files && Accepted(plan[k].direction, files[ReadFile(slug, plan[k])])
    decreases |plan|
  {
    if |plan| > 0 {
      ApplyReadSucceeds(cells, slug, files, plan[0]);
      var step := ApplyRead(cells, slug, files, plan[0]);
      if step.Success? {
        OutputsSucceed(step.value, slug, files, plan[1..]);
        assert forall k :: 0 < k < |plan| ==> plan[k] == plan[1..][k - 1];
      }
    }
  }

  /** When the loop stops early, it names one of the files it opens. */
  lemma {:induction false} OutputsErrorNamesFile(cells: Cells, slug: string, files: map<string, Payload>, plan: seq<Read>)
    requires Outputs(cells, slug, files, plan).Failure?
    ensures Outputs(cells, slug, files, plan).error.file in ReadFiles(slug, plan)
    decreases |plan|
  {
    var step := ApplyRead(cells, slug, files, plan[0]);
    if step.Success? {
      OutputsErrorNamesFile(step.value, slug, files, plan[1..]);
      var k :| 0 <= k < |plan[1..]| && ReadFiles(slug, plan[1..])[k] == Outputs(cells, slug, files, plan).error.file;
      assert ReadFiles(slug, plan)[k + 1] == ReadFiles(slug, plan[1..])[k];
    } else {
      assert ReadFiles(slug, plan)[0] == ReadFile(slug, plan[0]);
    }
  }

  lemma {:induction false} SliceReadsMatchWrites(slug: string, cityHall: DistanceMatrixClient.LatLng,
                                                 points: seq<DistanceMatrixClient.LatLng>, mode: string,
                                                 slices: seq<(nat, nat)>, arrivalTime: real, departureTime: real)
    requires BatchDriver.SlicesWithin(slices, |points|)
    ensures ReadFiles(slug, SliceReads(mode, slices))
         == BatchDriver.Files(BatchDriver.SliceCalls(slug, cityHall, points, mode, slices, arrivalTime, departureTime))
  {
    if |slices| > 0 {
      var head := [ BatchDriver.SliceCall(slug, cityHall, points, mode, BatchDriver.Directions[0], slices[0].0, slices[0].1, arrivalTime, departureTime),
                    BatchDriver.SliceCall(slug, cityHall, points, mode, BatchDriver.Directions[1], slices[0].0, slices[0].1, arrivalTime, departureTime) ];
      var rest := BatchDriver.SliceCalls(slug, cityHall, points, mode, slices[1..], arrivalTime, departureTime);
      BatchDriver.FilesConcat(head, rest);
      SliceReadsMatchWrites(slug, cityHall, points, mode, slices[1..], arrivalTime, departureTime);
      var plan := SliceReads(mode, slices);
      assert plan == plan[..2] + SliceReads(mode, slices[1..]);
      ReadFilesConcat(slug, plan[..2], SliceReads(mode, slices[1..]));
    }
  }

  lemma {:induction false} ModeReadsMatchWrites(slug: string, cityHall: DistanceMatrixClient.LatLng,
                                                points: seq<DistanceMatrixClient.LatLng>, modes: seq<string>,
                                                arrivalTime: real, departureTime: real)
    ensures ReadFiles(slug, ModeReads(modes, |points|))
         == BatchDriver.Files(BatchDriver.ModeCalls(slug, cityHall, points, modes, arrivalTime, departureTime))
  {
    if |modes| > 0 {
      var slices := BatchDriver.Slices(|points|);
      var head := BatchDriver.SliceCalls(slug, cityHall, points, modes[0], slices, arrivalTime, departureTime);
      var rest := BatchDriver.ModeCalls(slug, cityHall, points, modes[1..], arrivalTime, departureTime);
      BatchDriver.FilesConcat(head, rest);
      SliceReadsMatchWrites(slug, cityHall, points, modes[0], slices, arrivalTime, departureTime);
      ModeReadsMatchWrites(slug, cityHall, points, modes[1..], arrivalTime, departureTime);
      ReadFilesConcat(slug, SliceReads(modes[0], slices), ModeReads(modes[1..], |points|));
    }
  }

  /**
   * For a table of the points `save_inputs` saved, `save_outputs` opens
   * exactly the files `save_inputs` wrote, in the order it wrote them.
   */
  lemma ReadsMatchWrites(city: BatchDriver.City, points: seq<DistanceMatrixClient.LatLng>, arrivalTime: real, departureTime: real)
    ensures ReadFiles(BatchDriver.Slug(city.name), CityReads(|points|))
         == BatchDriver.Files(BatchDriver.SaveInputsCalls(city, points, arrivalTime, departureTime))
  {
    ModeReadsMatchWrites(BatchDriver.Slug(city.name), city.cityHall, points, BatchDriver.DriverModes, arrivalTime, departureTime);
  }

  lemma OutputsFirst(cells: Cells, slug: string, files: map<string, Payload>, r: Read, rest: seq<Read>)
    ensures Outputs(cells, slug, files, [r] + rest) == Continue(ApplyRead(cells, slug, files, r), slug, files, rest)
  {
    assert ([r] + rest)[0] == r && ([r] + rest)[1..] == rest;
  }

  /** The files of the slice starting at `i`, then those of the later slices. */
  lemma SliceReadsStep(mode: string, i: nat, n: nat)
    requires i < n
    ensures SliceReads(mode, BatchDriver.SlicesFrom(i, n))
         == DirectionReads(mode, i, BatchDriver.SliceEnd(i, n))
            + SliceReads(mode, BatchDriver.SlicesFrom(i + BatchDriver.SliceSize, n))
  {
  }

  /** Reading one mode's slices from `i` on: the slice at `i`, then the later ones. */
  lemma SliceOutputsStep(cells: Cells, slug: string, files: map<string, Payload>, mode: string, i: nat, n: nat)
    requires i < n
    ensures Outputs(cells, slug, files, SliceReads(mode, BatchDriver.SlicesFrom(i, n)))
         == Continue(Outputs(cells, slug, files, DirectionReads(mode, i, BatchDriver.SliceEnd(i, n))), slug, files,
                     SliceReads(mode, BatchDriver.SlicesFrom(i + BatchDriver.SliceSize, n)))
  {
    SliceReadsStep(mode, i, n);
    OutputsConcat(cells, slug, files, DirectionReads(mode, i, BatchDriver.SliceEnd(i, n)),
                  SliceReads(mode, BatchDriver.SlicesFrom(i + BatchDriver.SliceSize, n)));
  }

  /** Reading several modes: the first mode's slices, then the other modes. */
  lemma ModeOutputsStep(cells: Cells, slug: string, files: map<string, Payload>, modes: seq<string>, n: nat)
    requires |modes| > 0
    ensures Outputs(cells, slug, files, ModeReads(modes, n))
         == Continue(Outputs(cells, slug, files, SliceReads(modes[0], BatchDriver.Slices(n))), slug, files,
                     ModeReads(modes[1..], n))
  {
    OutputsConcat(cells, slug, files, SliceReads(modes[0], BatchDriver.Slices(n)), ModeReads(modes[1..], n));
  }

  // ---------------------------------------------------------------------------
  // When every reply fits its slice, the slices are those of the points file
  // ---------------------------------------------------------------------------

  /** The reply in the file of `r`, if there is one, reaches no table row past the slice. */
  predicate FitsSlice(slug: string, files: map<string, Payload>, r: Read)
  {
    var name := ReadFile(slug, r);
    name in files ==> r.i + ResultTable.ReplyRows(r.direction, files[name]) <= r.iEnd
  }

  /** A read that fits its slice, in a table labelled `0..n-1`, keeps exactly those labels. */
  lemma ApplyReadKeepsRows(cells: Cells, slug: string, files: map<string, Payload>, r: Read, n: nat)
    requires ResultTable.RowLabels(cells) == ResultTable.RowRange(n)
    requires r.iEnd <= n && FitsSlice(slug, files, r)
    ensures ApplyRead(cells, slug, files, r).Success? ==>
      ResultTable.RowLabels(ApplyRead(cells, slug, files, r).value) == ResultTable.RowRange(n)
  {
    var name := ReadFile(slug, r);
    if name in files {
      var payload := files[name];
      var count := ResultTable.ReplyRows(r.direction, payload);
      var after;
      if r.direction == "arrival" {
        after := ResultTable.ReadArrival(cells, r.i, r.mode, payload).cells;
        ResultTable.ReadArrivalReach(cells, r.i, r.mode, payload);
      } else {
        after := ResultTable.ReadDeparture(cells, r.i, r.mode, payload).cells;
        ResultTable.ReadDepartureReach(cells, r.i, r.mode, payload);
      }
      ResultTable.RowsWithin(cells, after, r.i, count);
      assert ResultTable.RowLabels(after) == ResultTable.RowRange(n);
    }
  }

  /** Both files of a slice that fit it, in a table labelled `0..n-1`, keep exactly those labels. */
  lemma DirectionOutputsKeepRows(cells: Cells, slug: string, files: map<string, Payload>, mode: string, i: nat, iEnd: nat, n: nat)
    requires ResultTable.RowLabels(cells) == ResultTable.RowRange(n)
    requires iEnd <= n
    requires forall r :: r in DirectionReads(mode, i, iEnd) ==> FitsSlice(slug, files, r)
    ensures var o := Outputs(cells, slug, files, DirectionReads(mode, i, iEnd));
      o.Success? ==> ResultTable.RowLabels(o.value) == ResultTable.RowRange(n)
  {
    var plan := DirectionReads(mode, i, iEnd);
    assert plan == [plan[0]] + [plan[1]];
    OutputsFirst(cells, slug, files, plan[0], [plan[1]]);
    ApplyReadKeepsRows(cells, slug, files, plan[0], n);
    var first := ApplyRead(cells, slug, files, plan[0]);
    if first.Success? {
      OutputsFirst(first.value, slug, files, plan[1], []);
      assert [plan[1]] == [plan[1]] + [];
      ApplyReadKeepsRows(first.value, slug, files, plan[1], n);
    }
  }

  /**
   * In a table labelled `0..n-1`, when every reply fits its slice, the slice
   * loop of one mode from `i` reads the slices of `n` points and keeps the labels.
   */
  lemma {:induction false} SliceOutputsFixed(cells: Cells, slug: string, files: map<string, Payload>, mode: string, i: nat, n: nat)
    requires ResultTable.RowLabels(cells) == ResultTable.RowRange(n)
    requires forall r :: r in SliceReads(mode, BatchDriver.SlicesFrom(i, n)) ==> FitsSlice(slug, files, r)
    ensures SliceOutputs(cells, slug, files, mode, Starts(i, n))
         == Outputs(cells, slug, files, SliceReads(mode, BatchDriver.SlicesFrom(i, n)))
    ensures var o := Outputs(cells, slug, files, SliceReads(mode, BatchDriver.SlicesFrom(i, n)));
      o.Success? ==> ResultTable.RowLabels(o.value) == ResultTable.RowRange(n)
    decreases n - i
  {
    if i < n {
      var iEnd := BatchDriver.SliceEnd(i, n);
      var here := DirectionReads(mode, i, iEnd);
      var later := SliceReads(mode, BatchDriver.SlicesFrom(i + BatchDriver.SliceSize, n));
      SliceReadsStep(mode, i, n);
      SliceOutputsStep(cells, slug, files, mode, i, n);
      assert ResultTable.Len(cells) == n by {
        ResultTable.RowRangeSize(n);
      }
      DirectionOutputsKeepRows(cells, slug, files, mode, i, iEnd, n);
      var first := Outputs(cells, slug, files, here);
      if first.Success? {
        SliceOutputsFixed(first.value, slug, files, mode, i + BatchDriver.SliceSize, n);
      }
      assert Starts(i, n)[0] == i && Starts(i, n)[1..] == Starts(i + BatchDriver.SliceSize, n);
    }
  }

  /**
   * In a table labelled `0..n-1`, when every reply fits its slice, the mode
   * loop reads exactly the slices of `n` points for every mode.
   */
  lemma {:induction false} ModeOutputsFixed(cells: Cells, slug: string, files: map<string, Payload>, modes: seq<string>, n: nat)
    requires ResultTable.RowLabels(cells) == ResultTable.RowRange(n)
    requires forall r :: r in ModeReads(modes, n) ==> FitsSlice(slug, files, r)
    ensures ModeOutputs(cells, slug, files, modes) == Outputs(cells, slug, files, ModeReads(modes, n))
    decreases |modes|
  {
    if |modes| > 0 {
      assert ResultTable.Len(cells) == n by {
        ResultTable.RowRangeSize(n);
      }
      ModeOutputsStep(cells, slug, files, modes, n);
      SliceOutputsFixed(cells, slug, files, modes[0], 0, n);
      var first := Outputs(cells, slug, files, SliceReads(modes[0], BatchDriver.Slices(n)));
      if first.Success? {
        ModeOutputsFixed(first.value, slug, files, modes[1..], n);
      }
    }
  }

  /**
   * When the table read from the points file has the rows `0..n-1` of the
   * points `save_inputs` saved and every reply fits its slice, `save_outputs`
   * opens exactly the files `save_inputs` wrote, in order; it saves the table
   * to the results file exactly when each of them is there and passes the
   * assertions, and otherwise names one of them.
   */
  lemma CityOutputsWhenRepliesFit(city: BatchDriver.City, points: seq<DistanceMatrixClient.LatLng>, table: Cells,
                                  files: map<string, Payload>, arrivalTime: real, departureTime: real)
    requires ResultTable.RowLabels(table) == ResultTable.RowRange(|points|)
    requires forall r :: r in CityReads(|points|) ==> FitsSlice(BatchDriver.Slug(city.name), files, r)
    ensures var slug, plan, written := BatchDriver.Slug(city.name), CityReads(|points|),
                                       BatchDriver.Files(BatchDriver.SaveInputsCalls(city, points, arrivalTime, departureTime));
      var saved := CityOutputs(city, table, files);
      && ReadFiles(slug, plan) == written
      && (saved.Success? <==>
            forall k :: 0 <= k < |plan| ==>
              ReadFile(slug, plan[k]) in files && Accepted(plan[k].direction, files[ReadFile(slug, plan[k])]))
      && (saved.Success? ==> saved.value.file == BatchDriver.ResultsFile(slug))
      && (saved.Failure? ==> saved.error.file in written)
  {
    var slug, plan := BatchDriver.Slug(city.name), CityReads(|points|);
    ModeOutputsFixed(table, slug, files, BatchDriver.DriverModes, |points|);
    ReadsMatchWrites(city, points, arrivalTime, departureTime);
    OutputsSucceed(table, slug, files, plan);
    if Outputs(table, slug, files, plan).Failure? {
      OutputsErrorNamesFile(table, slug, files, plan);
    }
  }

  /**
   * One pass of the direction loop: opens the distances file of the mode,
   * direction and slice and flattens its reply into the table.
   */
  method ReadReply(df: ResultTable.Frame, slug: string, files: map<string, Payload>,
                   mode: string, direction: string, i: nat, iEnd: nat) returns (error: Option<OutputError>)
    modifies df
    ensures ApplyRead(old(df.cells), slug, files, Read(mode, direction, i, iEnd))
         == if error.Some? then Failure(error.value) else Success(df.cells)
  {
    var name := BatchDriver.DistancesFile(slug, mode, direction, i, iEnd);
    if name !in files {
      return Some(FileNotFound(name));
    }
    var payload := files[name];
    var ok;
    if direction == "arrival" {
      ok := df.ReadArrivalReply(i, mode, payload);
    } else {
      ok := df.ReadDepartureReply(i, mode, payload);
    }
    if !ok {
      return Some(ReplyRejected(name));
    }
    return None;
  }

  /** The direction loop for the slice `[i, iEnd)` of one mode. */
  method ReadSliceReplies(df: ResultTable.Frame, slug: string, files: map<string, Payload>, mode: string, i: nat, iEnd: nat)
    returns (error: Option<OutputError>)
    modifies df
    ensures Outputs(old(df.cells), slug, files, DirectionReads(mode, i, iEnd))
         == if error.Some? then Failure(error.value) else Success(df.cells)
  {
    ghost var plan := DirectionReads(mode, i, iEnd);
    ghost var target := Outputs(df.cells, slug, files, plan);
    var d := 0;
    while d < |BatchDriver.Directions|
      invariant 0 <= d <= 2
      invariant target == Outputs(df.cells, slug, files, plan[d..])
    {
      var direction := BatchDriver.Directions[d];
      assert plan[d..] == [Read(mode, direction, i, iEnd)] + plan[d + 1..];
      OutputsFirst(df.cells, slug, files, Read(mode, direction, i, iEnd), plan[d + 1..]);
      error := ReadReply(df, slug, files, mode, direction, i, iEnd);
      if error.Some? {
        return;
      }
      d := d + 1;
    }
    return None;
  }

  /**
   * The slice loop of one mode: `i` runs over `list(range(0, len(df), 100))`,
   * taken as the mode begins, and each slice ends at `min(i + 100, len(df))`
   * for the table as it is when the slice begins.
   */
  method ReadModeReplies(df: ResultTable.Frame, slug: string, files: map<string, Payload>, mode: string)
    returns (error: Option<OutputError>)
    modifies df
    ensures SliceOutputs(old(df.cells), slug, files, mode, Starts(0, ResultTable.Len(old(df.cells))))
         == if error.Some? then Failure(error.value) else Success(df.cells)
  {
    var starts := Starts(0, ResultTable.Len(df.cells));
    ghost var target := SliceOutputs(df.cells, slug, files, mode, starts);
    var k := 0;
    while k < |starts|
      invariant 0 <= k <= |starts|
      invariant target == SliceOutputs(df.cells, slug, files, mode, starts[k..])
    {
      var i := starts[k];
      var len := ResultTable.Len(df.cells);
      var iEnd := if i + BatchDriver.SliceSize <= len then i + BatchDriver.SliceSize else len;
      assert iEnd == BatchDriver.SliceEnd(i, len);
      assert starts[k..][0] == i && starts[k..][1..] == starts[k + 1..];
      error := ReadSliceReplies(df, slug, files, mode, i, iEnd);
      if error.Some? {
        return;
      }
      k := k + 1;
    }
    assert starts[k..] == [];
    return None;
  }

  /** The mode loop: each mode's slices in turn, stopping at the first file that raises. */
  method ReadReplies(df: ResultTable.Frame, slug: string, files: map<string, Payload>, modes: seq<string>)
    returns (error: Option<OutputError>)
    modifies df
    ensures ModeOutputs(old(df.cells), slug, files, modes)
         == if error.Some? then Failure(error.value) else Success(df.cells)
  {
    ghost var target := ModeOutputs(df.cells, slug, files, modes);
    var m := 0;
    while m < |modes|
      invariant 0 <= m <= |modes|
      invariant target == ModeOutputs(df.cells, slug, files, modes[m..])
    {
      var mode := modes[m];
      assert modes[m..][0] == mode && modes[m..][1..] == modes[m + 1..];
      error := ReadModeReplies(df, slug, files, mode);
      if error.Some? {
        return;
      }
      m := m + 1;
    }
    assert modes[m..] == [];
    return None;
  }

  /**
   * `save_outputs` for one city: the mode loop over the table read from the
   * points file, then the table saved to the results file.
   */
  method SaveCityOutputs(city: BatchDriver.City, points: Cells, files: map<string, Payload>)
    returns (r: Result<Saved, OutputError>)
    ensures r == CityOutputs(city, points, files)
  {
    var slug := BatchDriver.Slug(city.name);
    var df := new ResultTable.Frame(points);
    var error := ReadReplies(df, slug, files, BatchDriver.DriverModes);
    if error.Some? {
      return Failure(error.value);
    }
    return Success(Saved(BatchDriver.ResultsFile(slug), df.cells));
  }
}
