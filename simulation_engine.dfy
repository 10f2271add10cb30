/** The rolling-window cycle generator of js/cFIREsimOpen.js: `simulation(form, data)` cuts the
    historical dataset into one window of `years` consecutive records per start offset and
    `cycle(start, end, data)` copies the dates of one window. */
module SimulationEngine {

  /** One historical record. Only its `Date` is read by the generator; `D` is its payload type. */
  datatype Record<D> = Record(date: D)

  /** The two fields of the form that the generator reads. */
  datatype Form = Form(retirementStartYear: int, retirementEndYear: int)

  /** Years per simulation cycle: the retirement runs from the start year to the end year inclusive. */
  function WindowLength(form: Form): (years: int)
    ensures form.retirementStartYear + years - 1 == form.retirementEndYear
    ensures years > 0 <==> form.retirementStartYear <= form.retirementEndYear
  {
    form.retirementEndYear - form.retirementStartYear + 1
  }

  /** `cycle(start, end, data)` reads `data[start]` .. `data[end - 1]`; when `end <= start` it reads nothing. */
  predicate CycleInBounds(length: int, start: int, end: int)
  {
    end <= start || (0 <= start && end <= length)
  }

  /** The dates of the records `start` .. `end - 1`, in order. */
  function CycleOf<D>(data: seq<Record<D>>, start: int, end: int): (cyc: seq<D>)
    requires CycleInBounds(|data|, start, end)
    ensures |cyc| == if end <= start then 0 else end - start
    ensures forall j :: 0 <= j < |cyc| ==> cyc[j] == data[start + j].date
    decreases end - start
  {
    if end <= start then [] else CycleOf(data, start, end - 1) + [data[end - 1].date]
  }

  /** The first `count` windows of length `years`, the window at position `i` starting at offset `i`. */
  function Windows<D>(data: seq<Record<D>>, years: int, count: int): (sim: seq<seq<D>>)
    requires years <= 0 || count <= 0 || count + years <= |data| + 1
    ensures |sim| == if count <= 0 then 0 else count
    ensures forall i :: 0 <= i < |sim| ==> sim[i] == CycleOf(data, i, i + years)
    decreases count
  {
    if count <= 0 then [] else Windows(data, years, count - 1) + [CycleOf(data, count - 1, count - 1 + years)]
  }

  /** `cycle(start, end, data)`: push the date of every record from `start` up to `end - 1`. */
  method Cycle<D>(start: int, end: int, data: array<Record<D>>) returns (cyc: seq<D>)
    requires CycleInBounds(data.Length, start, end)
    ensures cyc == CycleOf(data[..], start, end)
  {
    cyc := [];
    var i := start;
    while i < end
      invariant start <= i && (i <= end || i == start)
      invariant cyc == CycleOf(data[..], start, i)
      decreases end - i
    {
      cyc := cyc + [data[i].date];
      i := i + 1;
    }
  }

  /** `simulation(form, data)` as written: `cycles = data.length - years` windows, one per start
      offset 0 .. cycles - 1. The JavaScript function only logs `sim`; here it is the result. */
  method Simulation<D>(form: Form, data: array<Record<D>>) returns (sim: seq<seq<D>>)
    ensures sim == Windows(data[..], WindowLength(form), data.Length - WindowLength(form))
    ensures |sim| == if data.Length <= WindowLength(form) then 0 else data.Length - WindowLength(form)
  {
    var years := WindowLength(form);
    var cycles := data.Length - years;
    sim := [];
    var i := 0;
    while i < cycles
      invariant 0 <= i && (i <= cycles || i == 0)
      invariant sim == Windows(data[..], years, i)
      decreases cycles - i
    {
      var cyc := Cycle(i, i + years, data);
      sim := sim + [cyc];
      i := i + 1;
    }
  }

  /** `simulation` with the loop bound `data.length - years + 1`, so that the window ending at the
      last record is generated too. */
  method SimulationAllWindows<D>(form: Form, data: array<Record<D>>) returns (sim: seq<seq<D>>)
    ensures sim == Windows(data[..], WindowLength(form), data.Length - WindowLength(form) + 1)
    ensures |sim| == if data.Length < WindowLength(form) then 0 else data.Length - WindowLength(form) + 1
  {
    var years := WindowLength(form);
    var cycles := data.Length - years + 1;
    sim := [];
    var i := 0;
    while i < cycles
      invariant 0 <= i && (i <= cycles || i == 0)
      invariant sim == Windows(data[..], years, i)
      decreases cycles - i
    {
      var cyc := Cycle(i, i + years, data);
      sim := sim + [cyc];
      i := i + 1;
    }
  }

  /** A window of `years` records starting at offset `s` fits entirely inside a dataset of `length` records. */
  predicate FullWindowStart(length: int, years: int, s: int)
  {
    0 <= s && s + years <= length
  }

  /** As written, entry `j` of cycle `i` is the date of record `i + j`, and with a positive window
      length no read reaches past record `|data| - 2`. */
  lemma AsWrittenReadIndices<D>(data: seq<Record<D>>, years: int)
    requires years > 0
    ensures var sim := Windows(data, years, |data| - years);
      forall i, j :: 0 <= i < |sim| && 0 <= j < |sim[i]| ==>
        0 <= i + j <= |data| - 2 && sim[i][j] == data[i + j].date
  {
  }

  /** The windows generated as written never depend on the final record: dropping it changes nothing. */
  lemma {:induction false} LastRecordNeverRead<D>(data: seq<Record<D>>, years: int, count: int)
    requires |data| > 0 && years > 0 && count <= |data| - years
    ensures Windows(data, years, count) == Windows(data[..|data| - 1], years, count)
    decreases count
  {
    if count > 0 {
      var prefix := data[..|data| - 1];
      LastRecordNeverRead(data, years, count - 1);
      CycleOfPrefix(data, |data| - 1, count - 1, count - 1 + years);
      assert Windows(data, years, count) ==
        Windows(data, years, count - 1) + [CycleOf(data, count - 1, count - 1 + years)];
      assert Windows(prefix, years, count) ==
        Windows(prefix, years, count - 1) + [CycleOf(prefix, count - 1, count - 1 + years)];
    }
  }

  /** A window that ends inside a prefix of the dataset reads the same dates from the prefix. */
  lemma {:induction false} CycleOfPrefix<D>(data: seq<Record<D>>, k: int, start: int, end: int)
    requires 0 <= k <= |data| && CycleInBounds(k, start, end)
    ensures CycleOf(data, start, end) == CycleOf(data[..k], start, end)
    decreases end - start
  {
    if start < end {
      CycleOfPrefix(data, k, start, end - 1);
    }
  }

  /** As written, the full window that starts at offset `|data| - years` is never generated. */
  lemma AsWrittenMissesLastWindow<D>(data: seq<Record<D>>, years: int)
    requires 0 < years <= |data|
    ensures FullWindowStart(|data|, years, |data| - years)
    ensures |Windows(data, years, |data| - years)| == |data| - years
  {
  }

  /** Three records and a three-year retirement: one full window fits, but none is generated as written. */
  lemma AsWrittenThreeRecordsThreeYears()
    ensures var data := [Record(1960), Record(1961), Record(1962)];
      var years := WindowLength(Form(2020, 2022));
      years == 3 && FullWindowStart(|data|, years, 0) && Windows(data, years, |data| - years) == []
  {
  }

  /** With the corrected bound, the generated start offsets are exactly the offsets of full windows. */
  lemma AllWindowsCovered<D>(data: seq<Record<D>>, years: int)
    requires years > 0
    ensures var sim := Windows(data, years, |data| - years + 1);
      forall s :: FullWindowStart(|data|, years, s) <==> 0 <= s < |sim|
  {
  }

  /** With the corrected bound, the last cycle ends with the final record's date. */
  lemma AllWindowsReadLastRecord<D>(data: seq<Record<D>>, years: int)
    requires 0 < years <= |data|
    ensures var sim := Windows(data, years, |data| - years + 1);
      |sim| > 0 && |sim[|sim| - 1]| == years && sim[|sim| - 1][years - 1] == data[|data| - 1].date
  {
  }

  /** Three records and a three-year retirement: the corrected bound generates the one full window. */
  lemma AllWindowsThreeRecordsThreeYears()
    ensures Windows([Record(1960), Record(1961), Record(1962)], 3, 1) == [[1960, 1961, 1962]]
  {
    var data := [Record(1960), Record(1961), Record(1962)];
    assert CycleOf(data, 0, 3) == [1960, 1961, 1962];
  }
}
