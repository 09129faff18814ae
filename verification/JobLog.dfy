/** Mirroring a job's log (`mirror` in fleet/src/reconcile/job-tick.ts).

    The box appends to a log and now and then discards it and starts a new
    generation; the brain polls, fetches bounded chunks and writes a marker for
    the bytes it never saw. One character stands for one byte. */
module JobLog {

  const FETCH_MAX: nat := 1024 * 1024
  const MIRROR_MAX: nat := 64 * 1024 * 1024

  /** What the mirror file is made of, one piece per append. */
  datatype Piece = Data(text: string) | Lost(at: int, bytes: int) | Stopped

  /** The counters of a status line. */
  datatype Status = Status(truncations: nat, truncatedTotal: nat, logBytes: nat)

  datatype Fetch = Failed | Reply(text: string)

  /** The log columns of a jobs row. */
  datatype Counters =
    Counters(offset: nat, mirrored: nat, lostReported: int, truncated: bool, truncations: nat)

  const FRESH := Counters(0, 0, 0, false, 0)

  // ----- the mirror step -----

  function LostNow(row: Counters, st: Status): int {
    st.truncatedTotal - row.mirrored - row.lostReported
  }

  /** The columns and the appended pieces once a rise of the counter is handled. */
  function AfterMarker(row: Counters, st: Status, now: int): (Counters, seq<Piece>) {
    if st.truncations > row.truncations then
      (row.(offset := 0, lostReported := st.truncatedTotal - row.mirrored, truncated := true),
       [Lost(now, if LostNow(row, st) < 0 then 0 else LostNow(row, st))])
    else (row, [])
  }

  predicate Fetches(row: Counters, st: Status) {
    row.mirrored < MIRROR_MAX && st.logBytes > row.offset
  }

  function Chunk(fetch: Fetch): string {
    if fetch.Failed? then ""
    else if |fetch.text| > FETCH_MAX then fetch.text[..FETCH_MAX] else fetch.text
  }

  /** The columns and the appended pieces of one whole mirror step. */
  function Mirrored(row: Counters, st: Status, now: int, fetch: Fetch): (Counters, seq<Piece>) {
    var (r, out) := AfterMarker(row, st, now);
    if r.mirrored >= MIRROR_MAX then
      (r.(truncated := true, truncations := st.truncations), out + (if r.truncated then [] else [Stopped]))
    else if Fetches(r, st) && Chunk(fetch) != "" then
      (r.(offset := r.offset + |Chunk(fetch)|, mirrored := r.mirrored + |Chunk(fetch)|, truncations := st.truncations),
       out + [Data(Chunk(fetch))])
    else (r.(truncations := st.truncations), out)
  }

  type Files = map<string, seq<Piece>>

  function FileOf(files: Files, id: string): seq<Piece> {
    if id in files then files[id] else []
  }

  /** The files after these pieces are appended, one by one, to one of them. */
  function Appended(files: Files, id: string, out: seq<Piece>): Files {
    if out == [] then files else files[id := FileOf(files, id) + out]
  }

  /** The mirror files, by job. */
  class LogSink {
    var files: Files

    constructor ()
      ensures files == map[]
    {
      files := map[];
    }

    method Append(id: string, p: Piece)
      modifies this
      ensures files == Appended(old(files), id, [p])
    {
      files := files[id := FileOf(files, id) + [p]];
    }

    method Remove(id: string)
      modifies this
      ensures files == old(files) - {id}
    {
      files := files - {id};
    }
  }

  /** `fetch` is what the box answers if it is asked for the log. */
  method Mirror(sink: LogSink, id: string, row: Counters, st: Status, now: int, fetch: Fetch) returns (r: Counters)
    modifies sink
    ensures r == Mirrored(row, st, now, fetch).0
    ensures sink.files == Appended(old(sink.files), id, Mirrored(row, st, now, fetch).1)
  {
    var offset, mirrored, lostReported, truncated := row.offset, row.mirrored, row.lostReported, row.truncated;
    ghost var out: seq<Piece> := [];
    if st.truncations > row.truncations {
      var runningLost := st.truncatedTotal - mirrored;
      var lostNow := runningLost - lostReported;
      sink.Append(id, Lost(now, if lostNow < 0 then 0 else lostNow));
      out := [Lost(now, if lostNow < 0 then 0 else lostNow)];
      lostReported := runningLost;
      offset := 0;
      truncated := true;
    }
    assert (Counters(offset, mirrored, lostReported, truncated, row.truncations), out) == AfterMarker(row, st, now);
    assert out + [] == out && sink.files == Appended(old(sink.files), id, out);
    hide AfterMarker, LostNow, Appended, FileOf;
    if mirrored >= MIRROR_MAX {
      if !truncated {
        sink.Append(id, Stopped);
        AppendedTwice(old(sink.files), id, out, [Stopped]);
      }
      return Counters(offset, mirrored, lostReported, true, st.truncations);
    }
    if st.logBytes <= offset || fetch.Failed? {
      return Counters(offset, mirrored, lostReported, truncated, st.truncations);
    }
    var chunk := if |fetch.text| > FETCH_MAX then fetch.text[..FETCH_MAX] else fetch.text;
    if |chunk| == 0 {
      return Counters(offset, mirrored, lostReported, truncated, st.truncations);
    }
    sink.Append(id, Data(chunk));
    AppendedTwice(old(sink.files), id, out, [Data(chunk)]);
    r := Counters(offset + |chunk|, mirrored + |chunk|, lostReported, truncated, st.truncations);
  }

  lemma AppendedTwice(files: Files, id: string, a: seq<Piece>, b: seq<Piece>)
    ensures Appended(Appended(files, id, a), id, b) == Appended(files, id, a + b)
  {
    if a == [] {
      assert a + b == b;
    } else if b == [] {
      assert a + b == a;
    } else {
      assert FileOf(files, id) + a + b == FileOf(files, id) + (a + b);
      assert files[id := FileOf(files, id) + a][id := FileOf(files, id) + a + b]
             == files[id := FileOf(files, id) + a + b];
    }
  }

  // ----- the box -----

  /** Every generation of the log ever written, the current one last. */
  datatype Box = Box(gens: seq<string>) {
    function Current(): string requires gens != [] { gens[|gens| - 1] }

    function Append(text: string): Box
      requires gens != []
    {
      Box(gens[|gens| - 1 := Current() + text])
    }

    function Truncate(): Box {
      Box(gens + [""])
    }

    /** Bytes in the generations before `g`. */
    function Before(g: nat): nat
      requires g <= |gens|
    {
      if g == 0 then 0 else Before(g - 1) + |gens[g - 1]|
    }

    function Produced(): nat { Before(|gens|) }

    function Report(): Status
      requires gens != []
    {
      Status(|gens| - 1, Before(|gens| - 1), |Current()|)
    }

    /** The log from `offset`, as much of it as the box sends. */
    function Log(offset: nat, sends: nat): string
      requires gens != []
    {
      if offset > |Current()| then ""
      else if sends > |Current()| - offset then Current()[offset..]
      else Current()[offset..offset + sends]
    }
  }

  datatype Sending = NoReply | Sends(bytes: nat)

  /** What a fetch at the mirror's offset gives. */
  function FetchFrom(box: Box, row: Counters, st: Status, s: Sending): Fetch
    requires box.gens != []
  {
    match s
    case NoReply => Failed
    case Sends(n) => Reply(box.Log(AfterMarker(row, st, 0).0.offset, n))
  }

  /** The box, the row, the mirror file, and for each stretch of the file the
      generation the row stood on while it was written. */
  datatype World = World(box: Box, row: Counters, file: seq<Piece>, seen: seq<nat>)

  datatype Event = Append(text: string) | Truncate | Poll(now: int, readable: bool, sending: Sending)

  const START := World(Box([""]), FRESH, [], [0])

  /** A poll reads the status of `box` and fetches from `later`. */
  function Polled(w: World, later: Box, now: int, s: Sending): World
    requires w.box.gens != [] && later.gens != []
  {
    var st := w.box.Report();
    var (row, out) := Mirrored(w.row, st, now, FetchFrom(later, w.row, st, s));
    World(later, row, w.file + out, if st.truncations > w.row.truncations then w.seen + [st.truncations] else w.seen)
  }

  function Step(w: World, e: Event): World
    requires w.box.gens != []
  {
    match e
    case Append(text) => w.(box := w.box.Append(text))
    case Truncate => w.(box := w.box.Truncate())
    case Poll(now, readable, s) => if readable then Polled(w, w.box, now, s) else w
  }

  function Run(es: seq<Event>): (w: World)
    ensures w.box.gens != []
  {
    if es == [] then START else Step(Run(es[..|es| - 1]), es[|es| - 1])
  }

  // ----- reading a mirror file -----

  /** A mirror file as a reader takes it: the text between the loss markers, the
      numbers on the markers, the bytes of text, the number of stop lines. */
  datatype Reading = Reading(stretches: seq<string>, markers: seq<int>, data: nat, stops: nat)

  function ReadPiece(r: Reading, p: Piece): Reading
    requires r.stretches != []
  {
    var last := |r.stretches| - 1;
    match p
    case Data(t) => r.(stretches := r.stretches[last := r.stretches[last] + t], data := r.data + |t|)
    case Lost(_, n) => r.(stretches := r.stretches + [""], markers := r.markers + [n])
    case Stopped => r.(stops := r.stops + 1)
  }

  function Read(f: seq<Piece>): (r: Reading)
    ensures |r.stretches| == |r.markers| + 1
  {
    if f == [] then Reading([""], [], 0, 0) else ReadPiece(Read(f[..|f| - 1]), f[|f| - 1])
  }

  function Sum(s: seq<int>): int {
    if s == [] then 0 else Sum(s[..|s| - 1]) + s[|s| - 1]
  }

  // ----- the invariant -----

  /** The accounting: everything before the row's place in the log is mirrored or
      reported lost, and the file says the same. */
  ghost predicate Accounted(box: Box, row: Counters, r: Reading) {
    && row.truncations < |box.gens| && row.offset <= |box.gens[row.truncations]|
    && row.mirrored + row.lostReported == box.Before(row.truncations) + row.offset
    && row.mirrored == r.data < MIRROR_MAX + FETCH_MAX
    && row.lostReported == Sum(r.markers)
    && r.stops <= 1 && (row.truncated <==> r.markers != [] || r.stops == 1)
  }

  ghost predicate PrefixOf(t: string, box: Box, g: nat) {
    g < |box.gens| && t <= box.gens[g]
  }

  /** Each stretch is a prefix of one generation; the last one is all of its
      generation up to the row's offset. */
  ghost predicate Unspliced(box: Box, row: Counters, seen: seq<nat>, stretches: seq<string>) {
    && |seen| == |stretches| > 0 && seen[|seen| - 1] == row.truncations < |box.gens|
    && row.offset <= |box.gens[row.truncations]|
    && stretches[|seen| - 1] == box.gens[row.truncations][..row.offset]
    && forall i :: 0 <= i < |stretches| ==> PrefixOf(stretches[i], box, seen[i])
  }

  /** `n` bytes lie between the end of stretch `t` of generation `g` and the start
      of the later generation `h`. */
  ghost predicate Gap(n: int, t: string, box: Box, g: nat, h: nat) {
    g < h < |box.gens| && n == box.Before(h) - box.Before(g) - |t| && n >= 0
  }

  /** Each marker counts the bytes between the end of one stretch and the start of
      the next, which is of a later generation. */
  ghost predicate MarkersExact(box: Box, seen: seq<nat>, r: Reading) {
    && |seen| == |r.stretches| == |r.markers| + 1
    && forall i :: 0 <= i < |r.markers| ==> Gap(r.markers[i], r.stretches[i], box, seen[i], seen[i + 1])
  }

  ghost predicate Inv(w: World) {
    var r := Read(w.file);
    && w.box.gens != [] && Accounted(w.box, w.row, r)
    && Unspliced(w.box, w.row, w.seen, r.stretches) && MarkersExact(w.box, w.seen, r)
  }

  // ----- the box moves on -----

  lemma {:induction false} BeforeKept(a: Box, b: Box, g: nat)
    requires g <= |a.gens| && g <= |b.gens|
    requires forall i :: 0 <= i < g ==> a.gens[i] == b.gens[i]
    ensures a.Before(g) == b.Before(g)
  {
    if g > 0 {
      BeforeKept(a, b, g - 1);
    }
  }

  lemma {:induction false} BeforeGrows(a: Box, g: nat, h: nat)
    requires g < h <= |a.gens|
    ensures a.Before(g) + |a.gens[g]| <= a.Before(h)
    decreases h
  {
    if g + 1 < h {
      BeforeGrows(a, g, h - 1);
    }
  }

  /** `b` is what `a` has become: old generations kept, the current one extended,
      perhaps newer ones. */
  ghost predicate Later(a: Box, b: Box) {
    && a.gens != [] && |a.gens| <= |b.gens|
    && (forall i :: 0 <= i < |a.gens| - 1 ==> b.gens[i] == a.gens[i])
    && a.Current() <= b.gens[|a.gens| - 1]
  }

  lemma GapKept(n: int, t: string, a: Box, b: Box, g: nat, h: nat)
    requires Later(a, b) && Gap(n, t, a, g, h)
    ensures Gap(n, t, b, g, h)
  {
    BeforeKept(a, b, g);
    BeforeKept(a, b, h);
  }

  lemma AccountedKept(a: Box, b: Box, row: Counters, r: Reading)
    requires Later(a, b) && Accounted(a, row, r)
    ensures Accounted(b, row, r)
  {
    BeforeKept(a, b, row.truncations);
  }

  lemma LaterKeeps(w: World, b: Box)
    requires Inv(w) && Later(w.box, b)
    ensures Inv(w.(box := b))
  {
    var r := Read(w.file);
    AccountedKept(w.box, b, w.row, r);
    forall i | 0 <= i < |r.markers| ensures Gap(r.markers[i], r.stretches[i], b, w.seen[i], w.seen[i + 1]) {
      GapKept(r.markers[i], r.stretches[i], w.box, b, w.seen[i], w.seen[i + 1]);
    }
    hide Read, Gap, Accounted;
  }

  // ----- a poll -----

  lemma ReadPlus(f: seq<Piece>, p: Piece)
    ensures Read(f + [p]) == ReadPiece(Read(f), p)
  {
    assert (f + [p])[..|f|] == f;
  }

  lemma SumPlus(m: seq<int>, x: int)
    ensures Sum(m + [x]) == Sum(m) + x
  {
    assert (m + [x])[..|m|] == m;
  }

  /** The bytes the row never fetched when the counter has risen; never negative. */
  lemma LossIsExact(box: Box, row: Counters, r: Reading)
    requires box.gens != [] && Accounted(box, row, r) && box.Report().truncations > row.truncations
    ensures var n := LostNow(row, box.Report());
            n >= 0 && n == box.Before(|box.gens| - 1) - box.Before(row.truncations) - row.offset
  {
    BeforeGrows(box, row.truncations, |box.gens| - 1);
  }

  function Marked(w: World, now: int): World
    requires w.box.gens != []
  {
    var st := w.box.Report();
    var (row, out) := AfterMarker(w.row, st, now);
    World(w.box, row.(truncations := st.truncations), w.file + out,
          if st.truncations > w.row.truncations then w.seen + [st.truncations] else w.seen)
  }

  lemma MarkerKeepsAccount(box: Box, row: Counters, r: Reading)
    requires r.stretches != [] && box.gens != [] && Accounted(box, row, r) && box.Report().truncations > row.truncations
    ensures var st := box.Report();
            Accounted(box, row.(offset := 0, lostReported := st.truncatedTotal - row.mirrored, truncated := true,
                                truncations := st.truncations),
                      ReadPiece(r, Lost(0, LostNow(row, st))))
  {
    LossIsExact(box, row, r);
    SumPlus(r.markers, LostNow(row, box.Report()));
  }

  lemma MarkerKeepsPlaces(box: Box, row: Counters, seen: seq<nat>, r: Reading, n: int)
    requires box.gens != [] && row.truncations < |box.gens| - 1
    requires Unspliced(box, row, seen, r.stretches) && MarkersExact(box, seen, r)
    requires n >= 0 && n == box.Before(|box.gens| - 1) - box.Before(row.truncations) - row.offset
    ensures var g := |box.gens| - 1;
            var row' := row.(offset := 0, truncations := g);
            var r' := ReadPiece(r, Lost(0, n));
            Unspliced(box, row', seen + [g], r'.stretches) && MarkersExact(box, seen + [g], r')
  {
    var g := |box.gens| - 1;
    var r' := ReadPiece(r, Lost(0, n));
    assert r'.stretches == r.stretches + [""] && r'.markers == r.markers + [n];
    assert Gap(n, r.stretches[|seen| - 1], box, row.truncations, g);
    hide Gap;
    assert PrefixOf("", box, g);
    forall i | 0 <= i < |r'.markers|
      ensures Gap(r'.markers[i], r'.stretches[i], box, (seen + [g])[i], (seen + [g])[i + 1])
    {
      if i < |r.markers| {
        assert Gap(r.markers[i], r.stretches[i], box, seen[i], seen[i + 1]);
      }
    }
  }

  lemma UnsplicedRow(box: Box, row: Counters, row': Counters, seen: seq<nat>, stretches: seq<string>)
    requires row.offset == row'.offset && row.truncations == row'.truncations
    ensures Unspliced(box, row, seen, stretches) == Unspliced(box, row', seen, stretches)
  {
  }

  lemma MarkedRisen(w: World, now: int)
    requires w.box.gens != [] && w.box.Report().truncations > w.row.truncations && LostNow(w.row, w.box.Report()) >= 0
    ensures var st := w.box.Report();
            var row := w.row.(offset := 0, lostReported := st.truncatedTotal - w.row.mirrored, truncated := true,
                              truncations := st.truncations);
            Marked(w, now) == World(w.box, row, w.file + [Lost(now, LostNow(w.row, st))], w.seen + [st.truncations])
  {
  }

  lemma TimeIsNotRead(r: Reading, now: int, n: int)
    requires r.stretches != []
    ensures ReadPiece(r, Lost(now, n)) == ReadPiece(r, Lost(0, n))
  {
  }

  lemma RisenKeeps(w: World, now: int)
    requires Inv(w) && w.box.Report().truncations > w.row.truncations
    ensures Inv(Marked(w, now)) && Marked(w, now).row.truncated
  {
    hide Accounted, Unspliced, MarkersExact, Read, ReadPiece, Marked, LostNow;
    var st, r := w.box.Report(), Read(w.file);
    var n := LostNow(w.row, st);
    LossIsExact(w.box, w.row, r);
    MarkerKeepsAccount(w.box, w.row, r);
    ReadPlus(w.file, Lost(now, n));
    TimeIsNotRead(r, now, n);
    MarkedRisen(w, now);
    MarkerKeepsPlaces(w.box, w.row, w.seen, r, n);
    UnsplicedRow(w.box, Marked(w, now).row, w.row.(offset := 0, truncations := |w.box.gens| - 1),
                 w.seen + [st.truncations], ReadPiece(r, Lost(0, n)).stretches);
  }

  lemma MarkedKeeps(w: World, now: int)
    requires Inv(w)
    ensures Inv(Marked(w, now)) && Marked(w, now).box == w.box && Marked(w, now).row.truncations == |w.box.gens| - 1
    ensures w.box.Report().truncations > w.row.truncations ==> Marked(w, now).row.truncated
  {
    if w.box.Report().truncations > w.row.truncations {
      hide Inv;
      RisenKeeps(w, now);
    } else {
      assert w.row.truncations == |w.box.gens| - 1 by { hide Read, Unspliced, MarkersExact; }
      hide Inv;
      assert w.file + [] == w.file;
      assert Marked(w, now) == w;
    }
  }

  lemma StoppedKeeps(w: World)
    requires Inv(w) && !w.row.truncated
    ensures Inv(w.(row := w.row.(truncated := true), file := w.file + [Stopped]))
  {
    ReadPlus(w.file, Stopped);
    UnsplicedRow(w.box, w.row, w.row.(truncated := true), w.seen, Read(w.file).stretches);
    hide Read, Unspliced;
  }

  lemma DataKeeps(w: World, chunk: string)
    requires Inv(w) && w.row.mirrored < MIRROR_MAX && |chunk| <= FETCH_MAX
    requires w.row.offset + |chunk| <= |w.box.gens[w.row.truncations]|
    requires chunk == w.box.gens[w.row.truncations][w.row.offset..w.row.offset + |chunk|]
    ensures Inv(w.(row := w.row.(offset := w.row.offset + |chunk|, mirrored := w.row.mirrored + |chunk|),
                   file := w.file + [Data(chunk)]))
  {
    ReadPlus(w.file, Data(chunk));
    var r, r' := Read(w.file), Read(w.file + [Data(chunk)]);
    var gen := w.box.gens[w.row.truncations];
    assert gen[..w.row.offset] + chunk == gen[..w.row.offset + |chunk|];
    hide Read, Gap;
    forall i | 0 <= i < |r'.stretches| ensures PrefixOf(r'.stretches[i], w.box, w.seen[i]) {
      if i < |r.stretches| - 1 {
        assert PrefixOf(r.stretches[i], w.box, w.seen[i]);
      }
    }
    forall i | 0 <= i < |r'.markers| ensures Gap(r'.markers[i], r'.stretches[i], w.box, w.seen[i], w.seen[i + 1]) {
      assert Gap(r.markers[i], r.stretches[i], w.box, w.seen[i], w.seen[i + 1]);
    }
  }

  /** What a fetch sends continues the mirrored prefix, when no truncation came
      between the status and the fetch. */
  lemma ChunkContinues(w: World, later: Box, s: Sending, now: int)
    requires w.box.gens != [] && Later(w.box, later) && |later.gens| == |w.box.gens|
    ensures var m := Marked(w, now);
            var chunk := Chunk(FetchFrom(later, w.row, w.box.Report(), s));
            && |chunk| <= FETCH_MAX
            && (chunk != "" ==>
                && m.row.offset + |chunk| <= |later.Current()|
                && chunk == later.Current()[m.row.offset..m.row.offset + |chunk|])
  {
    assert AfterMarker(w.row, w.box.Report(), 0).0.offset == Marked(w, now).row.offset;
  }

  /** The second half of a poll: stop, append the chunk, or leave it. */
  function Finish(m: World, st: Status, chunk: string): World {
    if m.row.mirrored >= MIRROR_MAX then
      if m.row.truncated then m else m.(row := m.row.(truncated := true), file := m.file + [Stopped])
    else if Fetches(m.row, st) && chunk != "" then
      m.(row := m.row.(offset := m.row.offset + |chunk|, mirrored := m.row.mirrored + |chunk|),
         file := m.file + [Data(chunk)])
    else m
  }

  lemma PolledSplits(w: World, later: Box, now: int, s: Sending)
    requires w.box.gens != [] && later.gens != []
    ensures var st := w.box.Report();
            var chunk := Chunk(FetchFrom(later, w.row, st, s));
            Polled(w, later, now, s) == Finish(Marked(w, now).(box := later), st, chunk)
  {
    hide FetchFrom, Chunk;
    var st := w.box.Report();
    var (row, out) := AfterMarker(w.row, st, now);
    assert w.file + (out + []) == w.file + out;
    assert w.file + (out + [Stopped]) == w.file + out + [Stopped];
    var chunk := Chunk(FetchFrom(later, w.row, st, s));
    assert w.file + (out + [Data(chunk)]) == w.file + out + [Data(chunk)];
  }

  lemma FinishKeeps(m: World, st: Status, chunk: string)
    requires m.row.truncations < |m.box.gens| && Inv(m) && |chunk| <= FETCH_MAX
    requires chunk != "" ==> m.row.offset + |chunk| <= |m.box.gens[m.row.truncations]| &&
                             chunk == m.box.gens[m.row.truncations][m.row.offset..m.row.offset + |chunk|]
    ensures Inv(Finish(m, st, chunk))
  {
    hide Inv;
    if m.row.mirrored >= MIRROR_MAX && !m.row.truncated {
      StoppedKeeps(m);
    } else if m.row.mirrored < MIRROR_MAX && chunk != "" {
      DataKeeps(m, chunk);
    }
  }

  /** A poll with no truncation between its status and its fetch keeps the invariant. */
  lemma PolledKeeps(w: World, later: Box, now: int, s: Sending)
    requires Inv(w) && Later(w.box, later) && |later.gens| == |w.box.gens|
    ensures Inv(Polled(w, later, now, s))
    ensures Polled(w, later, now, s).row.truncations == |w.box.gens| - 1 && Polled(w, later, now, s).box == later
  {
    hide Inv, FetchFrom, Chunk, Polled, Marked;
    var chunk := Chunk(FetchFrom(later, w.row, w.box.Report(), s));
    MarkedKeeps(w, now);
    LaterKeeps(Marked(w, now), later);
    PolledSplits(w, later, now, s);
    ChunkContinues(w, later, s, now);
    FinishKeeps(Marked(w, now).(box := later), w.box.Report(), chunk);
  }

  lemma StepKeeps(w: World, e: Event)
    requires Inv(w)
    ensures Inv(Step(w, e))
  {
    match e
    case Append(text) => LaterKeeps(w, w.box.Append(text));
    case Truncate => LaterKeeps(w, w.box.Truncate());
    case Poll(now, readable, s) =>
      if readable {
        PolledKeeps(w, w.box, now, s);
      }
  }

  lemma StartIsFine()
    ensures Inv(START)
  {
  }

  /** The invariant holds in every run of appends, truncations and polls. */
  lemma {:induction false} RunKeeps(es: seq<Event>)
    ensures Inv(Run(es))
  {
    if es == [] {
      hide Inv;
      StartIsFine();
    } else {
      hide Inv, Step;
      RunKeeps(es[..|es| - 1]);
      StepKeeps(Run(es[..|es| - 1]), es[|es| - 1]);
    }
  }

  // ----- what a reader of the mirror may rely on -----

  lemma RunPlus(es: seq<Event>, e: Event)
    ensures Run(es + [e]) == Step(Run(es), e)
  {
    assert (es + [e])[..|es|] == es;
    hide Step;
  }

  lemma LawAtLatest(w: World)
    requires Inv(w) && w.row.truncations == |w.box.gens| - 1
    ensures w.row.mirrored + w.row.lostReported + (|w.box.Current()| - w.row.offset) == w.box.Produced()
  {
    hide Read, Unspliced, MarkersExact;
  }

  /** After any poll that read the status: bytes mirrored, bytes reported lost and
      bytes still to fetch are all the bytes the box ever produced. */
  lemma Conservation(es: seq<Event>, now: int, s: Sending)
    ensures var w := Run(es + [Poll(now, true, s)]);
            w.row.mirrored + w.row.lostReported + (|w.box.Current()| - w.row.offset) == w.box.Produced()
  {
    RunPlus(es, Poll(now, true, s));
    RunKeeps(es);
    hide Inv, Polled, Run;
    PolledKeeps(Run(es), Run(es).box, now, s);
    LawAtLatest(Polled(Run(es), Run(es).box, now, s));
  }

  /** In every run the clamp on a marker's number never fires. */
  lemma ClampNeverFires(es: seq<Event>)
    ensures var w := Run(es);
            w.box.Report().truncations > w.row.truncations ==> LostNow(w.row, w.box.Report()) >= 0
  {
    RunKeeps(es);
    var w := Run(es);
    if w.box.Report().truncations > w.row.truncations {
      LossIsExact(w.box, w.row, Read(w.file));
    }
  }

  /** In every run the mirror never splices: every stretch between markers is a
      prefix of one generation, in order, the markers between them are exact and
      add up to what the row reports, the file stays bounded, and the row says of the file
      exactly whether something is missing. */
  lemma MirrorIsFaithful(es: seq<Event>)
    ensures var w := Run(es);
            var r := Read(w.file);
            && Unspliced(w.box, w.row, w.seen, r.stretches) && MarkersExact(w.box, w.seen, r)
            && Sum(r.markers) == w.row.lostReported
            && r.data < MIRROR_MAX + FETCH_MAX && r.stops <= 1
            && (w.row.truncated <==> r.markers != [] || r.stops == 1)
  {
    RunKeeps(es);
  }

  // ----- catching up -----

  /** Bytes of the current generation that the mirror does not have yet. */
  function Behind(w: World): int
    requires w.box.gens != []
  {
    |w.box.Current()| - (if w.box.Report().truncations > w.row.truncations then 0 else w.row.offset)
  }

  function Min(a: int, b: int): int { if a < b then a else b }

  lemma MarkedIsBehind(w: World, now: int)
    requires Inv(w)
    ensures var m := Marked(w, now);
            && m.box == w.box && m.row.mirrored == w.row.mirrored && m.row.truncations == w.box.Report().truncations
            && AfterMarker(w.row, w.box.Report(), 0).0.offset == m.row.offset
            && Behind(m) == Behind(w) == |w.box.Current()| - m.row.offset >= 0
  {
    hide Read, Unspliced, MarkersExact;
  }

  lemma ChunkLength(box: Box, offset: nat, n: nat)
    requires box.gens != [] && offset <= |box.Current()|
    ensures |Chunk(Reply(box.Log(offset, n)))| == Min(Min(n, FETCH_MAX), |box.Current()| - offset)
  {
  }

  lemma FinishAdvances(m: World, chunk: string)
    requires m.box.gens != [] && m.row.truncations == m.box.Report().truncations && |chunk| <= Behind(m)
    ensures var v := Finish(m, m.box.Report(), chunk);
            var gain := if m.row.mirrored < MIRROR_MAX then |chunk| else 0;
            && v.box == m.box && v.row.mirrored == m.row.mirrored + gain && Behind(v) == Behind(m) - gain
            && (m.row.mirrored >= MIRROR_MAX ==> v.row.truncated)
  {
  }

  /** A poll brings as many bytes as are there, as the box sends, and as one fetch may
      take; none once the mirror is full. */
  lemma PollAdvances(w: World, now: int, n: nat)
    requires Inv(w)
    ensures var v := Polled(w, w.box, now, Sends(n));
            var gain := if w.row.mirrored < MIRROR_MAX then Min(Min(n, FETCH_MAX), Behind(w)) else 0;
            && Inv(v) && v.box == w.box && gain >= 0
            && v.row.mirrored == w.row.mirrored + gain && Behind(v) == Behind(w) - gain
            && (w.row.mirrored >= MIRROR_MAX ==> v.row.truncated)
  {
    var m := Marked(w, now);
    assert FetchFrom(w.box, w.row, w.box.Report(), Sends(n))
           == Reply(w.box.Log(AfterMarker(w.row, w.box.Report(), 0).0.offset, n));
    MarkedIsBehind(w, now);
    hide Inv, Marked, Polled, Finish, Behind, Chunk, FetchFrom, AfterMarker;
    assert m.box.Report() == w.box.Report() && m.(box := w.box) == m;
    PolledKeeps(w, w.box, now, Sends(n));
    PolledSplits(w, w.box, now, Sends(n));
    ChunkLength(w.box, m.row.offset, n);
    FinishAdvances(m, Chunk(FetchFrom(w.box, w.row, w.box.Report(), Sends(n))));
  }

  function PollTimes(w: World, now: int, n: nat, k: nat): (v: World)
    requires w.box.gens != []
    ensures v.box == w.box
  {
    if k == 0 then w else Polled(PollTimes(w, now, n, k - 1), w.box, now, Sends(n))
  }

  /** A backlog after k portions of up to c. */
  function Left(backlog: int, c: nat, k: nat): int {
    if k == 0 then backlog else Left(backlog, c, k - 1) - Min(c, Left(backlog, c, k - 1))
  }

  lemma {:induction false} LeftIs(backlog: nat, c: nat, k: nat)
    ensures Left(backlog, c, k) == if k * c <= backlog then backlog - k * c else 0
  {
    if k > 0 {
      LeftIs(backlog, c, k - 1);
      assert k * c == (k - 1) * c + c;
    }
  }

  lemma {:induction false} BacklogShrinks(w: World, now: int, n: nat, k: nat)
    requires w.box.gens != [] && Inv(w) && w.row.mirrored + Behind(w) <= MIRROR_MAX
    ensures var v := PollTimes(w, now, n, k);
            && Inv(v) && v.row.mirrored + Behind(v) == w.row.mirrored + Behind(w)
            && Behind(v) == Left(Behind(w), Min(n, FETCH_MAX), k)
  {
    hide Inv, Polled, Behind, Marked, AfterMarker;
    if k > 0 {
      var u := PollTimes(w, now, n, k - 1);
      BacklogShrinks(w, now, n, k - 1);
      MarkedIsBehind(u, now);
      PollAdvances(u, now, n);
    }
  }

  /** Once the box falls silent, k polls that each bring up to c bytes leave k * c bytes
      less behind, down to none, if the mirror has room for the backlog. */
  lemma CatchesUp(es: seq<Event>, now: int, n: nat, k: nat)
    requires Run(es).row.mirrored + Behind(Run(es)) <= MIRROR_MAX
    ensures var v, c := PollTimes(Run(es), now, n, k), Min(n, FETCH_MAX);
            Behind(v) == if k * c <= Behind(Run(es)) then Behind(Run(es)) - k * c else 0
  {
    RunKeeps(es);
    MarkedIsBehind(Run(es), now);
    hide Inv, Run, Behind, PollTimes, Left, Marked, AfterMarker;
    BacklogShrinks(Run(es), now, n, k);
    LeftIs(Behind(Run(es)), Min(n, FETCH_MAX), k);
  }

  // ----- a poll whose fetch comes later -----

  /** `chunk` is what stands in `gen` at offset `o`. */
  predicate Continues(chunk: string, gen: string, o: nat) {
    o + |chunk| <= |gen| && chunk == gen[o..o + |chunk|]
  }

  /** The chunk that a poll brings, and whether it is appended to the mirror. */
  function Fetched(w: World, later: Box, s: Sending): string
    requires w.box.gens != [] && later.gens != []
  {
    Chunk(FetchFrom(later, w.row, w.box.Report(), s))
  }

  predicate Appends(m: World, st: Status, chunk: string) {
    m.row.mirrored < MIRROR_MAX && Fetches(m.row, st) && chunk != ""
  }

  lemma KeptOnlyIfContinued(m: World, chunk: string)
    requires Inv(m)
    requires var v := m.(row := m.row.(offset := m.row.offset + |chunk|, mirrored := m.row.mirrored + |chunk|),
                         file := m.file + [Data(chunk)]);
             Inv(v)
    ensures m.row.truncations < |m.box.gens| && Continues(chunk, m.box.gens[m.row.truncations], m.row.offset)
  {
    ReadPlus(m.file, Data(chunk));
    var last := Read(m.file).stretches[|m.seen| - 1];
    var gen := m.box.gens[m.row.truncations];
    hide Read, MarkersExact, PrefixOf;
    assert last == gen[..m.row.offset] && last + chunk == gen[..m.row.offset + |chunk|];
    assert chunk == (last + chunk)[m.row.offset..];
  }

  lemma FinishLaw(m: World, st: Status, chunk: string)
    requires m.row.truncations < |m.box.gens| && Inv(m) && |chunk| <= FETCH_MAX
    ensures Inv(Finish(m, st, chunk))
            <==> (Appends(m, st, chunk) ==> Continues(chunk, m.box.gens[m.row.truncations], m.row.offset))
  {
    hide Inv, Fetches;
    if Appends(m, st, chunk) {
      if Inv(Finish(m, st, chunk)) {
        KeptOnlyIfContinued(m, chunk);
      }
      if Continues(chunk, m.box.gens[m.row.truncations], m.row.offset) {
        FinishKeeps(m, st, chunk);
      }
    } else if m.row.mirrored >= MIRROR_MAX && !m.row.truncated {
      StoppedKeeps(m);
    }
  }

  lemma FetchedIsBounded(w: World, later: Box, s: Sending)
    requires w.box.gens != [] && later.gens != []
    ensures |Fetched(w, later, s)| <= FETCH_MAX
  {
    hide FetchFrom;
  }

  /** A poll whose fetch comes later, after whatever the box did in between, keeps the
      mirror faithful exactly when nothing is appended or what is appended continues the
      generation of the status at the row's offset. */
  lemma SplitPollLaw(w: World, later: Box, now: int, s: Sending)
    requires Inv(w) && Later(w.box, later)
    ensures var g, m, chunk := |w.box.gens| - 1, Marked(w, now), Fetched(w, later, s);
            Inv(Polled(w, later, now, s))
            <==> (Appends(m, w.box.Report(), chunk) ==> Continues(chunk, later.gens[g], m.row.offset))
  {
    hide Inv, FetchFrom, Chunk, Polled, Marked, Finish, Continues;
    MarkedKeeps(w, now);
    LaterKeeps(Marked(w, now), later);
    FetchedIsBounded(w, later, s);
    PolledSplits(w, later, now, s);
    FinishLaw(Marked(w, now).(box := later), w.box.Report(), Fetched(w, later, s));
  }

  /** Whatever the fetch brought, the row adds up to its offset in the generation of the
      status. */
  lemma SplitPollAccount(w: World, later: Box, now: int, s: Sending)
    requires Inv(w) && later.gens != []
    ensures var g, v := |w.box.gens| - 1, Polled(w, later, now, s);
            v.row.truncations == g && v.row.mirrored + v.row.lostReported == w.box.Before(g) + v.row.offset
  {
    MarkedKeeps(w, now);
    PolledSplits(w, later, now, s);
    assert Marked(w, now).row.mirrored + Marked(w, now).row.lostReported
           == w.box.Before(|w.box.gens| - 1) + Marked(w, now).row.offset by {
      hide Read, Marked, Unspliced, MarkersExact, Polled;
    }
    hide Inv, Marked, Polled, FetchFrom, Chunk, Fetches;
  }

  /** What the next marker is owed: after such a poll it is clamped exactly when the
      generations in between hold fewer bytes than the row's offset. */
  lemma ClampExactly(w: World, later: Box, now: int, s: Sending, latest: Box)
    requires Inv(w) && Later(w.box, later) && Later(later, latest) && |latest.gens| > |w.box.gens|
    ensures var g, h, v := |w.box.gens| - 1, |latest.gens| - 1, Polled(w, later, now, s);
            && latest.Report().truncations > v.row.truncations
            && (LostNow(v.row, latest.Report()) < 0 <==> latest.Before(h) - latest.Before(g) < v.row.offset)
  {
    hide Inv, Polled;
    SplitPollAccount(w, later, now, s);
    BeforeKept(w.box, latest, |w.box.gens| - 1);
  }

  /** A truncation in that gap splices the mirror, and the next marker is clamped:
      "a" of one generation is followed by "yz" of the next, in one stretch. */
  lemma SplicedBySplitPoll()
    ensures var w := Run([Append("a"), Poll(1, true, Sends(1)), Append("b")]);
            var later := w.box.Truncate().Append("xyz");
            var v := Polled(w, later, 2, Sends(9));
            && Read(v.file).stretches == ["ayz"]
            && later.Report().truncations > v.row.truncations && LostNow(v.row, later.Report()) < 0
  {
    SpliceRun();
    TwoPiecesRead("a", "yz");
    assert "a" + "yz" == "ayz";
    hide Run, Read;
    var w := World(Box(["ab"]), Counters(1, 1, 0, false, 0), [Data("a")], [0]);
    var later := Box(["ab", "xyz"]);
    assert "" + "xyz" == "xyz" && w.box.Truncate().Append("xyz").gens == later.gens;
    assert later.Log(1, 9) == "yz";
    PolledSplits(w, later, 2, Sends(9));
    var v := Polled(w, later, 2, Sends(9));
    assert w.file + [] == w.file;
    assert v.row == Counters(3, 3, 0, false, 0) && v.file == [Data("a")] + [Data("yz")];
    assert later.Before(1) == 2 by { assert later.Before(0) == 0; }
  }

  /** With fewer bytes sent the same splice leaves no trace: the next marker reports that
      nothing was lost. */
  lemma SplicedInSilence()
    ensures var w := Run([Append("a"), Poll(1, true, Sends(1)), Append("b")]);
            var later := w.box.Truncate().Append("xyz");
            var v := Polled(w, later, 2, Sends(1));
            Read(v.file).stretches == ["ay"] && LostNow(v.row, later.Report()) == 0
  {
    SpliceRun();
    hide Run, Read;
    var w := World(Box(["ab"]), Counters(1, 1, 0, false, 0), [Data("a")], [0]);
    var later := Box(["ab", "xyz"]);
    assert "" + "xyz" == "xyz" && w.box.Truncate().Append("xyz").gens == later.gens;
    assert later.Log(1, 1) == "y";
    PolledSplits(w, later, 2, Sends(1));
    var v := Polled(w, later, 2, Sends(1));
    assert w.file + [] == w.file;
    assert v.row == Counters(2, 2, 0, false, 0) && v.file == [Data("a")] + [Data("y")];
    TwoPiecesRead("a", "y");
    assert "a" + "y" == "ay";
    assert later.Before(1) == 2 by { assert later.Before(0) == 0; }
  }

  lemma TwoPiecesRead(a: string, b: string)
    ensures Read([Data(a)] + [Data(b)]).stretches == [a + b]
  {
    var none: seq<Piece> := [];
    assert Read(none).stretches == [""];
    ReadPlus(none, Data(a));
    ReadPlus([Data(a)], Data(b));
    hide Read;
    assert none + [Data(a)] == [Data(a)];
    assert "" + a == a;
  }

  lemma SpliceRun()
    ensures Run([Append("a"), Poll(1, true, Sends(1)), Append("b")])
            == World(Box(["ab"]), Counters(1, 1, 0, false, 0), [Data("a")], [0])
  {
    var e1, e2, e3 := Append("a"), Poll(1, true, Sends(1)), Append("b");
    RunPlus([], e1);
    RunPlus([e1], e2);
    RunPlus([e1, e2], e3);
    assert [] + [e1] == [e1] && [e1] + [e2] == [e1, e2] && [e1, e2] + [e3] == [e1, e2, e3];
    hide Run, Polled;
    assert Run([]) == START by { RunOfNone(); }
    var w1 := World(Box(["a"]), FRESH, [], [0]);
    assert START.box.Append("a").gens == w1.box.gens by { assert "" + "a" == "a"; }
    PolledSplits(w1, w1.box, 1, Sends(1));
    assert w1.box.Log(0, 1) == "a";
    var none: seq<Piece> := [];
    assert none + [Data("a")] == [Data("a")] && none + [] == none;
    assert "a" + "b" == "ab";
    assert Box(["a"]).Append("b").gens == ["ab"];
  }

  lemma RunOfNone()
    ensures Run([]) == START
  {
  }
}
