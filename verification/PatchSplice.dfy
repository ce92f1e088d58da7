/** What splicing chunks writes, line by line, and how chunks lie in their sections.
    Nothing here assumes that sections are in order. */
module PatchSplice {
  import opened PatchModel
  import opened PatchChunks

  // ------------------------------------------------- the output line by line

  function ChunkEnd(c: Chunk): nat {
    c.origIndex + |c.delLines|
  }

  /** The line lies in a chunk's cut range. */
  predicate Cut(chunks: seq<Chunk>, i: nat) {
    exists k :: 0 <= k < |chunks| && chunks[k].origIndex <= i < ChunkEnd(chunks[k])
  }

  /** What the chunks that start at the line insert, in their order. */
  function InsertedAt(chunks: seq<Chunk>, i: nat): seq<string> {
    if chunks == [] then []
    else
      var last := chunks[|chunks| - 1];
      InsertedAt(chunks[..|chunks| - 1], i) + if last.origIndex == i then last.insLines else []
  }

  /** The lines of the file before `upto`, each behind what is inserted at it, and
      each left out exactly when it is cut. */
  function LinesBefore(file: seq<string>, chunks: seq<Chunk>, upto: nat): seq<string>
    requires upto <= |file|
  {
    if upto == 0 then []
    else
      var i := upto - 1;
      LinesBefore(file, chunks, i) + InsertedAt(chunks, i) + if Cut(chunks, i) then [] else [file[i]]
  }

  /** The file with exactly the chunks' ranges cut and their lines spliced in. */
  function CutAndSpliced(file: seq<string>, chunks: seq<Chunk>): seq<string> {
    LinesBefore(file, chunks, |file|) + InsertedAt(chunks, |file|)
  }

  function LastChunkEnd(chunks: seq<Chunk>): nat {
    if chunks == [] then 0 else ChunkEnd(chunks[|chunks| - 1])
  }

  lemma {:induction false} NothingAfter(chunks: seq<Chunk>, i: nat)
    requires forall k :: 0 <= k < |chunks| ==> chunks[k].origIndex < i
    ensures InsertedAt(chunks, i) == []
  {
    if chunks != [] {
      NothingAfter(chunks[..|chunks| - 1], i);
    }
  }

  lemma FitInit(chunks: seq<Chunk>, n: nat)
    requires chunks != [] && ChunksFit(chunks, n)
    ensures
      var init, c := chunks[..|chunks| - 1], chunks[|chunks| - 1];
      && ChunksFit(init, n) && LastChunkEnd(init) <= c.origIndex && ChunkEnd(c) <= n
      && forall k :: 0 <= k < |init| ==> ChunkEnd(init[k]) <= LastChunkEnd(init)
  {
    var init := chunks[..|chunks| - 1];
    forall k | 0 <= k < |init| ensures ChunkEnd(init[k]) <= LastChunkEnd(init) {
      if k < |init| - 1 {
        assert chunks[k].origIndex + |chunks[k].delLines| <= chunks[|init| - 1].origIndex;
      }
    }
  }

  /** Lines before a chunk read the same with and without it. */
  lemma {:induction false} SameBefore(file: seq<string>, init: seq<Chunk>, c: Chunk, upto: nat)
    requires upto <= |file| && upto <= c.origIndex
    ensures LinesBefore(file, init + [c], upto) == LinesBefore(file, init, upto)
  {
    hide InsertedAt, Cut;
    if upto > 0 {
      SameBefore(file, init, c, upto - 1);
      AddChunk(init, c, upto - 1);
    }
  }

  lemma AddChunk(init: seq<Chunk>, c: Chunk, i: nat)
    ensures InsertedAt(init + [c], i) == InsertedAt(init, i) + if c.origIndex == i then c.insLines else []
    ensures Cut(init + [c], i) <==> Cut(init, i) || c.origIndex <= i < ChunkEnd(c)
  {
    var all := init + [c];
    assert all[..|init|] == init;
    assert all[|init|] == c;
    if Cut(init, i) {
      var k :| 0 <= k < |init| && init[k].origIndex <= i < ChunkEnd(init[k]);
      assert all[k] == init[k];
    }
  }

  /** What a chunk leaves of the lines from its start up to `upto`. */
  function Behind(file: seq<string>, c: Chunk, upto: nat): seq<string>
    requires upto <= |file|
  {
    if upto <= ChunkEnd(c) then [] else file[ChunkEnd(c)..upto]
  }

  lemma BehindStep(file: seq<string>, c: Chunk, i: nat)
    requires i < |file|
    ensures Behind(file, c, i + 1) == Behind(file, c, i) + if i < ChunkEnd(c) then [] else [file[i]]
  {
    if i >= ChunkEnd(c) {
      assert file[ChunkEnd(c)..i + 1] == file[ChunkEnd(c)..i] + [file[i]];
    }
  }

  /** From a chunk's start on: what it inserts, then the lines behind its range. */
  lemma {:induction false} FromChunk(file: seq<string>, init: seq<Chunk>, c: Chunk, upto: nat, base: seq<string>)
    requires c.origIndex <= upto <= |file|
    requires forall k :: 0 <= k < |init| ==> ChunkEnd(init[k]) <= c.origIndex
    requires base == LinesBefore(file, init, c.origIndex) + InsertedAt(init, c.origIndex) + c.insLines
    ensures LinesBefore(file, init + [c], upto) + InsertedAt(init + [c], upto) == base + Behind(file, c, upto)
    decreases upto
  {
    hide InsertedAt, Cut, LinesBefore;
    var all := init + [c];
    AddChunk(init, c, upto);
    if upto == c.origIndex {
      SameBefore(file, init, c, upto);
    } else {
      var i := upto - 1;
      FromChunk(file, init, c, i, base);
      NothingAfter(init, upto);
      assert InsertedAt(all, upto) == [];
      AddChunk(init, c, i);
      NotCut(init, i);
      LinesStep(file, all, i);
      hide Behind;
      BehindStep(file, c, i);
      assert LinesBefore(file, all, upto) == base + Behind(file, c, i) + if Cut(all, i) then [] else [file[i]];
    }
  }

  lemma NotCut(chunks: seq<Chunk>, i: nat)
    requires forall k :: 0 <= k < |chunks| ==> ChunkEnd(chunks[k]) <= i
    ensures !Cut(chunks, i)
  {
  }

  lemma LinesStep(file: seq<string>, chunks: seq<Chunk>, i: nat)
    requires i < |file|
    ensures LinesBefore(file, chunks, i + 1) ==
      LinesBefore(file, chunks, i) + InsertedAt(chunks, i) + if Cut(chunks, i) then [] else [file[i]]
  {
    hide InsertedAt, Cut;
  }

  lemma {:induction false} NoChunksCopy(file: seq<string>, upto: nat)
    requires upto <= |file|
    ensures LinesBefore(file, [], upto) == file[..upto]
  {
    if upto > 0 {
      NoChunksCopy(file, upto - 1);
    }
  }

  /** After any fitting chunks, the splice has written the lines before the next
      line to copy. */
  lemma {:induction false} SpliceWrites(file: seq<string>, chunks: seq<Chunk>, upto: nat)
    requires ChunksFit(chunks, |file|) && LastChunkEnd(chunks) <= upto <= |file|
    ensures
      var r := Splice(file, Spliced([], 0), chunks);
      && r.Ok? && r.value.at == LastChunkEnd(chunks)
      && r.value.dest + file[r.value.at..upto] == LinesBefore(file, chunks, upto) + InsertedAt(chunks, upto)
    decreases |chunks|
  {
    if chunks == [] {
      NoChunksCopy(file, upto);
      assert file[0..upto] == file[..upto];
    } else {
      var init, c := chunks[..|chunks| - 1], chunks[|chunks| - 1];
      FitInit(chunks, |file|);
      assert chunks == init + [c];
      hide ChunksFit, Splice, LinesBefore, InsertedAt;
      SpliceWrites(file, init, c.origIndex);
      SpliceConcat(file, Spliced([], 0), init, [c]);
      OneChunk(file, Splice(file, Spliced([], 0), init).value, c);
      var base := LinesBefore(file, init, c.origIndex) + InsertedAt(init, c.origIndex) + c.insLines;
      FromChunk(file, init, c, upto, base);
      if upto <= ChunkEnd(c) {
        assert file[ChunkEnd(c)..upto] == [];
      }
    }
  }

  lemma OneChunk(file: seq<string>, s: Spliced, c: Chunk)
    requires s.at <= c.origIndex && ChunkEnd(c) <= |file|
    ensures Splice(file, s, [c]) == Ok(Spliced(s.dest + file[s.at..c.origIndex] + c.insLines, ChunkEnd(c)))
  {
    assert [c][1..] == [];
  }

  /** Whenever the splice succeeds it writes the file with exactly the chunks' ranges
      cut and their lines spliced in; every other line is the original one. */
  lemma SpliceIsCutAndSpliced(file: seq<string>, chunks: seq<Chunk>)
    requires Updated(file, chunks).Ok?
    ensures Updated(file, chunks).value == CutAndSpliced(file, chunks)
  {
    UpdatedOkIff(file, chunks);
    if chunks != [] {
      FitInit(chunks, |file|);
    }
    SpliceWrites(file, chunks, |file|);
    var s := Splice(file, Spliced([], 0), chunks).value;
    assert file[s.at..] == file[s.at..|file|];
  }

  // --------------------------------------------------- chunks in their section

  predicate HasEdit(ops: seq<Op>) {
    ops != [] && (!ops[|ops| - 1].Keep? || HasEdit(ops[..|ops| - 1]))
  }

  /** How many of the section's old lines come before its first deletion or insertion. */
  function EditStart(ops: seq<Op>): nat {
    if ops == [] then 0
    else if HasEdit(ops[..|ops| - 1]) then EditStart(ops[..|ops| - 1])
    else |OldSide(ops[..|ops| - 1])|
  }

  /** How many of them come before the end of its last deletion or insertion. */
  function EditEnd(ops: seq<Op>): nat {
    if ops == [] then 0
    else if ops[|ops| - 1].Keep? then EditEnd(ops[..|ops| - 1])
    else |OldSide(ops)|
  }

  function DelLines(ops: seq<Op>): seq<string> {
    if ops == [] then []
    else DelLines(ops[..|ops| - 1]) + if ops[|ops| - 1].Del? then [ops[|ops| - 1].line] else []
  }

  function InsLines(ops: seq<Op>): seq<string> {
    if ops == [] then []
    else InsLines(ops[..|ops| - 1]) + if ops[|ops| - 1].Ins? then [ops[|ops| - 1].line] else []
  }

  function AllDeleted(chunks: seq<Chunk>): seq<string> {
    if chunks == [] then [] else AllDeleted(chunks[..|chunks| - 1]) + chunks[|chunks| - 1].delLines
  }

  function AllInserted(chunks: seq<Chunk>): seq<string> {
    if chunks == [] then [] else AllInserted(chunks[..|chunks| - 1]) + chunks[|chunks| - 1].insLines
  }

  /** A chunk under construction holds something exactly after an edit. */
  lemma {:induction false} PendingIff(ops: seq<Op>)
    ensures BuildOf(ops).mode == KeepMode <==> ops == [] || ops[|ops| - 1].Keep?
    ensures BuildOf(ops).mode != KeepMode ==> BuildOf(ops).del != [] || BuildOf(ops).ins != []
  {
    if ops != [] {
      PendingIff(ops[..|ops| - 1]);
    }
  }

  function DelOf(op: Op): seq<string> {
    if op.Del? then [op.line] else []
  }

  function InsOf(op: Op): seq<string> {
    if op.Ins? then [op.line] else []
  }

  function Grown(c: Chunk, op: Op): Chunk {
    Chunk(c.origIndex, c.delLines + DelOf(op), c.insLines + InsOf(op))
  }

  /** A kept line adds nothing to the chunks; an edit behind a kept line starts a
      chunk there, n old lines into the section; an edit behind an edit joins its chunk. */
  function NextChunks(chunks: seq<Chunk>, op: Op, behindEdit: bool, n: nat): seq<Chunk> {
    if op.Keep? then chunks
    else if !behindEdit then chunks + [Chunk(n, DelOf(op), InsOf(op))]
    else if chunks == [] then []
    else
      chunks[..|chunks| - 1] + [Grown(chunks[|chunks| - 1], op)]
  }

  predicate EndsInEdit(ops: seq<Op>) {
    ops != [] && !ops[|ops| - 1].Keep?
  }

  lemma FeedStart(b: Build, op: Op)
    requires |b.del| <= |b.context| && b.mode == KeepMode && b.del == [] && b.ins == [] && !op.Keep?
    ensures Flushed(Feed(b, op)) == Flushed(b) + [Chunk(|b.context|, DelOf(op), InsOf(op))]
  {
    assert b.del + DelOf(op) == DelOf(op) && b.ins + InsOf(op) == InsOf(op);
  }

  lemma FeedJoin(b: Build, op: Op)
    requires |b.del| <= |b.context| && (b.del != [] || b.ins != []) && !op.Keep?
    ensures
      var c := Chunk(|b.context| - |b.del|, b.del, b.ins);
      Flushed(b) == b.chunks + [c] && ChunkEnd(c) == |b.context| && Flushed(Feed(b, op)) == b.chunks + [Grown(c, op)]
  {
    assert b.del + DelOf(op) == Feed(b, op).del;
    assert b.ins + InsOf(op) == Feed(b, op).ins;
  }

  lemma FeedStep(b: Build, op: Op)
    requires |b.del| <= |b.context|
    requires b.mode == KeepMode <==> b.del == [] && b.ins == []
    ensures Flushed(Feed(b, op)) == NextChunks(Flushed(b), op, b.mode != KeepMode, |b.context|)
    ensures b.mode != KeepMode ==> Flushed(b) != [] && ChunkEnd(Flushed(b)[|Flushed(b)| - 1]) == |b.context|
  {
    if !op.Keep? {
      hide Feed, Flushed;
      if b.mode == KeepMode {
        FeedStart(b, op);
      } else {
        FeedJoin(b, op);
        assert Flushed(b)[..|Flushed(b)| - 1] == b.chunks;
      }
    }
  }

  lemma ChunksStep(init: seq<Op>, op: Op)
    ensures ChunksOf(init + [op]) == NextChunks(ChunksOf(init), op, EndsInEdit(init), |OldSide(init)|)
    ensures EndsInEdit(init) ==> ChunksOf(init) != [] && LastChunkEnd(ChunksOf(init)) == |OldSide(init)|
  {
    assert (init + [op])[..|init|] == init;
    PendingIff(init);
    hide Feed, Flushed;
    FeedStep(BuildOf(init), op);
  }

  /** The chunks of a section: none exactly when it edits nothing; otherwise from its
      first edit to its last, in order, each cutting the very lines it names; together
      all its deleted and inserted lines. */
  ghost predicate Spans(ops: seq<Op>, chunks: seq<Chunk>) {
    && Reach(chunks, HasEdit(ops), EditStart(ops), EditEnd(ops))
    && Inside(chunks, OldSide(ops))
    && AllDeleted(chunks) == DelLines(ops) && AllInserted(chunks) == InsLines(ops)
  }

  predicate Reach(chunks: seq<Chunk>, any: bool, start: nat, end: nat) {
    && (chunks == [] <==> !any)
    && (chunks != [] ==> chunks[0].origIndex == start && LastChunkEnd(chunks) == end)
  }

  ghost predicate Inside(chunks: seq<Chunk>, old': seq<string>) {
    ChunksFit(chunks, |old'|) && forall k :: 0 <= k < |chunks| ==> Names(chunks[k], old')
  }

  /** The chunk's cut lines are those of the section at its place. */
  ghost predicate Names(c: Chunk, old': seq<string>) {
    ChunkEnd(c) <= |old'| && forall j :: 0 <= j < |c.delLines| ==> c.delLines[j] == old'[c.origIndex + j]
  }

  lemma {:induction false} SectionSpans(ops: seq<Op>)
    ensures Spans(ops, ChunksOf(ops))
  {
    if ops == [] {
      assert ChunksOf([]) == [];
    } else {
      var init, op := ops[..|ops| - 1], ops[|ops| - 1];
      SectionSpans(init);
      assert ops == init + [op];
      ChunksStep(init, op);
      hide ChunksOf, Spans, NextChunks;
      var before := ChunksOf(init);
      OldSideStep(init, op);
      EditsStep(init, op);
      if op.Keep? {
        SpansKeep(init, op, before);
      } else if !EndsInEdit(init) {
        SpansStart(init, op, before);
      } else {
        SpansJoin(init, op, before);
      }
    }
  }

  lemma OldSideStep(init: seq<Op>, op: Op)
    ensures OldSide(init + [op]) == OldSide(init) + if op.Ins? then [] else [op.line]
    ensures DelLines(init + [op]) == DelLines(init) + DelOf(op)
    ensures InsLines(init + [op]) == InsLines(init) + InsOf(op)
  {
    assert (init + [op])[..|init|] == init;
  }

  lemma EditsStep(init: seq<Op>, op: Op)
    ensures HasEdit(init + [op]) <==> !op.Keep? || HasEdit(init)
    ensures EditStart(init + [op]) == if HasEdit(init) then EditStart(init) else |OldSide(init)|
    ensures EditEnd(init + [op]) == if op.Keep? then EditEnd(init) else |OldSide(init + [op])|
    ensures EndsInEdit(init) ==> HasEdit(init)
  {
    assert (init + [op])[..|init|] == init;
  }

  lemma InsideMore(chunks: seq<Chunk>, old': seq<string>, more: seq<string>)
    requires Inside(chunks, old')
    ensures Inside(chunks, old' + more)
  {
  }

  lemma InsideAppend(chunks: seq<Chunk>, c: Chunk, old': seq<string>)
    requires Inside(chunks, old') && Names(c, old')
    requires forall k :: 0 <= k < |chunks| ==> ChunkEnd(chunks[k]) <= c.origIndex
    ensures Inside(chunks + [c], old')
  {
  }

  lemma InsideInit(chunks: seq<Chunk>, c: Chunk, old': seq<string>)
    requires Inside(chunks + [c], old')
    ensures Inside(chunks, old') && Names(c, old')
    ensures forall k :: 0 <= k < |chunks| ==> ChunkEnd(chunks[k]) <= c.origIndex
  {
    var all := chunks + [c];
    assert all[|chunks|] == c;
    forall k | 0 <= k < |chunks| ensures Names(chunks[k], old') && ChunkEnd(chunks[k]) <= c.origIndex {
      assert all[k] == chunks[k];
    }
    forall j, k | 0 <= j < k < |chunks| ensures ChunkEnd(chunks[j]) <= chunks[k].origIndex {
      assert all[j] == chunks[j] && all[k] == chunks[k];
    }
  }

  lemma GrownNames(c: Chunk, old': seq<string>, op: Op)
    requires !op.Keep? && Names(c, old') && ChunkEnd(c) == |old'|
    ensures Names(Grown(c, op), old' + DelOf(op))
    ensures Grown(c, op).origIndex == c.origIndex
  {
  }

  lemma Regroup(x: seq<string>, y: seq<string>, z: seq<string>)
    ensures x + (y + z) == x + y + z
  {
  }

  lemma AppendTotals(chunks: seq<Chunk>, c: Chunk)
    ensures AllDeleted(chunks + [c]) == AllDeleted(chunks) + c.delLines
    ensures AllInserted(chunks + [c]) == AllInserted(chunks) + c.insLines
  {
    assert (chunks + [c])[..|chunks|] == chunks;
  }

  lemma SpansKeep(init: seq<Op>, op: Op, chunks: seq<Chunk>)
    requires Spans(init, chunks) && op.Keep?
    ensures Spans(init + [op], NextChunks(chunks, op, EndsInEdit(init), |OldSide(init)|))
  {
    hide OldSide, HasEdit, EditStart, EditEnd, DelLines, InsLines, AllDeleted, AllInserted, Inside;
    OldSideStep(init, op);
    EditsStep(init, op);
    InsideMore(chunks, OldSide(init), [op.line]);
  }

  lemma SpansStart(init: seq<Op>, op: Op, chunks: seq<Chunk>)
    requires Spans(init, chunks) && !op.Keep? && !EndsInEdit(init)
    ensures Spans(init + [op], NextChunks(chunks, op, EndsInEdit(init), |OldSide(init)|))
  {
    hide OldSide, HasEdit, EditStart, EditEnd, DelLines, InsLines, AllDeleted, AllInserted;
    var n := |OldSide(init)|;
    OldSideStep(init, op);
    EditsStep(init, op);
    var c := Chunk(n, DelOf(op), InsOf(op));
    AppendTotals(chunks, c);
    assert forall k :: 0 <= k < |chunks| ==> ChunkEnd(chunks[k]) <= n;
    assert OldSide(init + [op]) == OldSide(init) + DelOf(op);
    InsideMore(chunks, OldSide(init), DelOf(op));
    hide Inside;
    InsideAppend(chunks, c, OldSide(init) + DelOf(op));
  }

  lemma JoinIs(rest: seq<Chunk>, c: Chunk, op: Op, n: nat)
    requires !op.Keep?
    ensures NextChunks(rest + [c], op, true, n) == rest + [Grown(c, op)]
  {
    var all := rest + [c];
    assert all[..|all| - 1] == rest;
  }

  lemma JoinReaches(rest: seq<Chunk>, c: Chunk, op: Op, start: nat, end: nat)
    requires !op.Keep? && Reach(rest + [c], true, start, end)
    ensures Reach(rest + [Grown(c, op)], true, start, ChunkEnd(c) + |DelOf(op)|)
  {
    var all, grown := rest + [c], rest + [Grown(c, op)];
    if rest != [] {
      assert grown[0] == all[0];
    }
  }

  lemma SpansJoin(init: seq<Op>, op: Op, chunks: seq<Chunk>)
    requires Spans(init, chunks) && !op.Keep? && EndsInEdit(init)
    requires chunks != [] && LastChunkEnd(chunks) == |OldSide(init)|
    ensures Spans(init + [op], NextChunks(chunks, op, EndsInEdit(init), |OldSide(init)|))
  {
    hide *;
    hide OldSide;
    OldSideStep(init, op);
    EditsStep(init, op);
    var rest, c := chunks[..|chunks| - 1], chunks[|chunks| - 1];
    assert chunks == rest + [c];
    SpansOpen(init, rest, c);
    JoinIs(rest, c, op, |OldSide(init)|);
    JoinReaches(rest, c, op, EditStart(init), EditEnd(init));
    AppendTotals(rest, c);
    AppendTotals(rest, Grown(c, op));
    EditSide(init, op);
    InsideInit(rest, c, OldSide(init));
    InsideMore(rest, OldSide(init), DelOf(op));
    GrownNames(c, OldSide(init), op);
    InsideAppend(rest, Grown(c, op), OldSide(init) + DelOf(op));
    JoinCloses(init, op, rest, c);
  }

  lemma EditSide(init: seq<Op>, op: Op)
    requires !op.Keep?
    ensures OldSide(init + [op]) == OldSide(init) + DelOf(op)
  {
    OldSideStep(init, op);
  }

  lemma SpansOpen(init: seq<Op>, rest: seq<Chunk>, c: Chunk)
    requires Spans(init, rest + [c]) && EndsInEdit(init) && LastChunkEnd(rest + [c]) == |OldSide(init)|
    ensures Reach(rest + [c], true, EditStart(init), EditEnd(init)) && Inside(rest + [c], OldSide(init))
    ensures ChunkEnd(c) == |OldSide(init)|
    ensures AllDeleted(rest + [c]) == DelLines(init) && AllInserted(rest + [c]) == InsLines(init)
  {
    hide OldSide, EditStart, EditEnd, DelLines, InsLines, AllDeleted, AllInserted, Inside;
  }

  lemma JoinCloses(init: seq<Op>, op: Op, rest: seq<Chunk>, c: Chunk)
    requires !op.Keep? && EndsInEdit(init) && ChunkEnd(c) == |OldSide(init)|
    requires Reach(rest + [Grown(c, op)], true, EditStart(init), ChunkEnd(c) + |DelOf(op)|)
    requires Inside(rest + [Grown(c, op)], OldSide(init) + DelOf(op))
    requires AllDeleted(rest) + c.delLines == DelLines(init) && AllInserted(rest) + c.insLines == InsLines(init)
    ensures Spans(init + [op], rest + [Grown(c, op)])
  {
    hide OldSide, HasEdit, EditStart, EditEnd, DelLines, InsLines, AllDeleted, AllInserted, Inside, Reach, DelOf, InsOf;
    OldSideStep(init, op);
    EditsStep(init, op);
    EditSide(init, op);
    AppendTotals(rest, Grown(c, op));
    Regroup(AllDeleted(rest), c.delLines, DelOf(op));
    Regroup(AllInserted(rest), c.insLines, InsOf(op));
  }

  // -------------------------------------------------------- several sections

  /** The file lines from a section's first edit to behind its last. */
  function FirstEdit(h: Hunk): nat {
    h.at + EditStart(h.ops)
  }

  function LastEdit(h: Hunk): nat {
    h.at + EditEnd(h.ops)
  }

  predicate EditsBehind(j: Hunk, k: Hunk) {
    HasEdit(j.ops) && HasEdit(k.ops) ==> LastEdit(j) <= FirstEdit(k)
  }

  /** Each section's edits come after those of the sections before it; context may
      overlap. */
  ghost predicate EditsInOrder(hunks: seq<Hunk>) {
    forall j, k :: 0 <= j < k < |hunks| ==> EditsBehind(hunks[j], hunks[k])
  }

  ghost predicate AllEndBy(chunks: seq<Chunk>, m: nat) {
    forall k :: 0 <= k < |chunks| ==> ChunkEnd(chunks[k]) <= m
  }

  lemma SectionChunks(h: Hunk, n: nat)
    requires HunkEnd(h) <= n
    ensures
      var chunks := Shift(ChunksOf(h.ops), h.at);
      && ChunksFit(chunks, n)
      && Reach(chunks, HasEdit(h.ops), FirstEdit(h), LastEdit(h))
      && (forall m: nat :: AllEndBy(chunks, m) <==> (HasEdit(h.ops) ==> LastEdit(h) <= m))
  {
    hide ChunksOf, OldSide, HasEdit, EditStart, EditEnd, DelLines, InsLines, AllDeleted, AllInserted;
    SectionSpans(h.ops);
    var plain, chunks := ChunksOf(h.ops), Shift(ChunksOf(h.ops), h.at);
    assert forall k :: 0 <= k < |chunks| ==> ChunkEnd(chunks[k]) == ChunkEnd(plain[k]) + h.at;
    forall k | 0 <= k < |chunks| ensures ChunkEnd(chunks[k]) <= LastChunkEnd(chunks) {
      if k < |chunks| - 1 {
        assert plain[k].origIndex + |plain[k].delLines| <= plain[|plain| - 1].origIndex;
      }
    }
  }

  lemma AllEndByConcat(a: seq<Chunk>, b: seq<Chunk>, m: nat)
    ensures AllEndBy(a + b, m) <==> AllEndBy(a, m) && AllEndBy(b, m)
  {
    var all := a + b;
    assert forall k :: 0 <= k < |a| ==> all[k] == a[k];
    assert forall k :: 0 <= k < |b| ==> all[|a| + k] == b[k];
  }

  lemma FitConcat(a: seq<Chunk>, b: seq<Chunk>, n: nat)
    ensures ChunksFit(a + b, n) <==>
      ChunksFit(a, n) && ChunksFit(b, n) && (b != [] ==> AllEndBy(a, b[0].origIndex))
  {
    var all := a + b;
    assert forall k :: 0 <= k < |a| ==> all[k] == a[k];
    assert forall k :: 0 <= k < |b| ==> all[|a| + k] == b[k];
    if ChunksFit(a, n) && ChunksFit(b, n) && (b != [] ==> AllEndBy(a, b[0].origIndex)) {
      forall j, k | 0 <= j < k < |all| ensures ChunkEnd(all[j]) <= all[k].origIndex {
        if j < |a| <= k {
          assert ChunkEnd(a[j]) <= b[0].origIndex <= b[k - |a|].origIndex;
        }
      }
    }
  }

  ghost predicate EditsEndBy(hunks: seq<Hunk>, m: nat) {
    forall k :: 0 <= k < |hunks| && HasEdit(hunks[k].ops) ==> LastEdit(hunks[k]) <= m
  }

  lemma EditsEndByStep(init: seq<Hunk>, h: Hunk, m: nat)
    ensures EditsEndBy(init + [h], m) <==> EditsEndBy(init, m) && (HasEdit(h.ops) ==> LastEdit(h) <= m)
  {
    hide HasEdit, EditEnd;
    var all := init + [h];
    assert all[|init|] == h && forall k :: 0 <= k < |init| ==> all[k] == init[k];
  }

  /** Sections' chunks end by a line exactly when their edits do. */
  lemma {:induction false} EndByIff(hunks: seq<Hunk>, n: nat, m: nat)
    requires forall k :: 0 <= k < |hunks| ==> HunkEnd(hunks[k]) <= n
    ensures AllEndBy(HunkChunks(hunks), m) <==> EditsEndBy(hunks, m)
  {
    hide ChunksOf, OldSide, HasEdit, EditStart, EditEnd, AllEndBy, EditsEndBy, ChunksFit, Reach, LastEdit, FirstEdit;
    if hunks == [] {
      NoEnds(m);
    } else {
      var init, h := hunks[..|hunks| - 1], hunks[|hunks| - 1];
      EndByIff(init, n, m);
      SectionChunks(h, n);
      AllEndByConcat(HunkChunks(init), Shift(ChunksOf(h.ops), h.at), m);
      EditsEndByStep(init, h, m);
      assert hunks == init + [h];
    }
  }

  lemma NoEnds(m: nat)
    ensures AllEndBy([], m) && EditsEndBy([], m)
  {
  }

  /** The splice takes the chunks of sections inside the file exactly when their
      edits, not necessarily their contexts, are in order. */
  lemma {:induction false} SectionsFitIff(hunks: seq<Hunk>, n: nat)
    requires forall k :: 0 <= k < |hunks| ==> HunkEnd(hunks[k]) <= n
    ensures ChunksFit(HunkChunks(hunks), n) <==> EditsInOrder(hunks)
  {
    hide ChunksOf, OldSide, HasEdit, EditStart, EditEnd, AllEndBy, ChunksFit, EditsEndBy, EditsInOrder;
    if hunks == [] {
      NoChunksFit(n);
    } else {
      var init, h := hunks[..|hunks| - 1], hunks[|hunks| - 1];
      var chunks := Shift(ChunksOf(h.ops), h.at);
      SectionsFitIff(init, n);
      SectionChunks(h, n);
      EndByIff(init, n, FirstEdit(h));
      FitConcat(HunkChunks(init), chunks, n);
      OrderStep(init, h);
      assert hunks == init + [h];
    }
  }

  lemma NoChunksFit(n: nat)
    ensures ChunksFit([], n) && EditsInOrder([])
  {
  }

  lemma OrderStep(init: seq<Hunk>, h: Hunk)
    ensures EditsInOrder(init + [h]) <==>
      EditsInOrder(init) &&
      (HasEdit(h.ops) ==> EditsEndBy(init, FirstEdit(h)))
  {
    hide HasEdit, EditStart, EditEnd;
    var all := init + [h];
    assert all[|init|] == h && forall k :: 0 <= k < |init| ==> all[k] == init[k];
    if EditsInOrder(all) {
      forall j, k | 0 <= j < k < |init| ensures EditsBehind(init[j], init[k]) {
        assert EditsBehind(all[j], all[k]);
      }
      forall k | 0 <= k < |init| ensures EditsBehind(init[k], h) {
        assert EditsBehind(all[k], all[|init|]);
      }
    }
  }

  // ----------------------------------------------- what the chunks consist of

  /** The chunk lies in the section and cuts the very lines the section names there. */
  ghost predicate ComesFrom(c: Chunk, h: Hunk) {
    && h.at <= c.origIndex && ChunkEnd(c) <= HunkEnd(h)
    && forall j :: 0 <= j < |c.delLines| ==> c.delLines[j] == OldSide(h.ops)[c.origIndex - h.at + j]
  }

  function HunkDeletes(hunks: seq<Hunk>): seq<string> {
    if hunks == [] then [] else HunkDeletes(hunks[..|hunks| - 1]) + DelLines(hunks[|hunks| - 1].ops)
  }

  function HunkInserts(hunks: seq<Hunk>): seq<string> {
    if hunks == [] then [] else HunkInserts(hunks[..|hunks| - 1]) + InsLines(hunks[|hunks| - 1].ops)
  }

  lemma {:induction false} TotalsConcat(a: seq<Chunk>, b: seq<Chunk>)
    ensures AllDeleted(a + b) == AllDeleted(a) + AllDeleted(b)
    ensures AllInserted(a + b) == AllInserted(a) + AllInserted(b)
    decreases |b|
  {
    hide AllDeleted, AllInserted;
    if b == [] {
      assert a + b == a;
      NoTotals();
    } else {
      var init, c := b[..|b| - 1], b[|b| - 1];
      TotalsConcat(a, init);
      TotalsNext(a, init, c);
      assert b == init + [c];
    }
  }

  lemma NoTotals()
    ensures AllDeleted([]) == [] && AllInserted([]) == []
  {
  }

  lemma TotalsNext(a: seq<Chunk>, init: seq<Chunk>, c: Chunk)
    requires AllDeleted(a + init) == AllDeleted(a) + AllDeleted(init)
    requires AllInserted(a + init) == AllInserted(a) + AllInserted(init)
    ensures AllDeleted(a + (init + [c])) == AllDeleted(a) + AllDeleted(init + [c])
    ensures AllInserted(a + (init + [c])) == AllInserted(a) + AllInserted(init + [c])
  {
    hide AllDeleted, AllInserted;
    assert a + (init + [c]) == (a + init) + [c];
    AppendTotals(a + init, c);
    AppendTotals(init, c);
    Regroup(AllDeleted(a), AllDeleted(init), c.delLines);
    Regroup(AllInserted(a), AllInserted(init), c.insLines);
  }

  lemma {:induction false} TotalsShift(chunks: seq<Chunk>, offset: nat)
    ensures AllDeleted(Shift(chunks, offset)) == AllDeleted(chunks)
    ensures AllInserted(Shift(chunks, offset)) == AllInserted(chunks)
  {
    if chunks != [] {
      TotalsShift(chunks[..|chunks| - 1], offset);
      assert Shift(chunks, offset)[..|chunks| - 1] == Shift(chunks[..|chunks| - 1], offset);
    }
  }

  ghost predicate FromSome(c: Chunk, hunks: seq<Hunk>) {
    exists j :: 0 <= j < |hunks| && ComesFrom(c, hunks[j])
  }

  /** Together the chunks delete and insert, in order, exactly the sections' deleted
      and inserted lines. */
  lemma {:induction false} ChunksAreTheEdits(hunks: seq<Hunk>)
    ensures AllDeleted(HunkChunks(hunks)) == HunkDeletes(hunks)
    ensures AllInserted(HunkChunks(hunks)) == HunkInserts(hunks)
  {
    if hunks != [] {
      var init, h := hunks[..|hunks| - 1], hunks[|hunks| - 1];
      ChunksAreTheEdits(init);
      hide ChunksOf, AllDeleted, AllInserted, DelLines, InsLines, ComesFrom, Shift;
      OwnChunks(h);
      TotalsConcat(HunkChunks(init), Shift(ChunksOf(h.ops), h.at));
    }
  }

  /** Every chunk comes from one of the sections. */
  lemma {:induction false} ChunkComesFromSection(hunks: seq<Hunk>, k: nat)
    requires k < |HunkChunks(hunks)|
    ensures FromSome(HunkChunks(hunks)[k], hunks)
  {
    var init, h := hunks[..|hunks| - 1], hunks[|hunks| - 1];
    hide ChunksOf, ComesFrom;
    var own := Shift(ChunksOf(h.ops), h.at);
    if k < |HunkChunks(init)| {
      ChunkComesFromSection(init, k);
      var j :| 0 <= j < |init| && ComesFrom(HunkChunks(init)[k], init[j]);
      assert hunks[j] == init[j];
    } else {
      OwnChunks(h);
      assert HunkChunks(hunks)[k] == own[k - |HunkChunks(init)|];
    }
  }

  lemma OwnChunks(h: Hunk)
    ensures
      var own := Shift(ChunksOf(h.ops), h.at);
      && (forall k :: 0 <= k < |own| ==> ComesFrom(own[k], h))
      && AllDeleted(own) == DelLines(h.ops) && AllInserted(own) == InsLines(h.ops)
  {
    hide ChunksOf, OldSide, AllDeleted, AllInserted, DelLines, InsLines, HasEdit, EditStart, EditEnd;
    SectionSpans(h.ops);
    TotalsShift(ChunksOf(h.ops), h.at);
    var plain, own := ChunksOf(h.ops), Shift(ChunksOf(h.ops), h.at);
    forall k | 0 <= k < |own| ensures ComesFrom(own[k], h) {
      assert Names(plain[k], OldSide(h.ops));
    }
  }

  /** Every chunk edits something, and a kept line lies between any two. */
  ghost predicate Runs(chunks: seq<Chunk>, open: nat) {
    && (forall k :: 0 <= k < |chunks| ==> chunks[k].delLines != [] || chunks[k].insLines != [])
    && (forall k :: 0 <= k < |chunks| ==> ChunkEnd(chunks[k]) < open)
    && (forall j, k :: 0 <= j < k < |chunks| ==> ChunkEnd(chunks[j]) < chunks[k].origIndex)
  }

  lemma {:induction false} BuildRuns(ops: seq<Op>)
    ensures
      var b := BuildOf(ops);
      Runs(b.chunks, |b.context| - |b.del|) && (b.mode != KeepMode ==> b.del != [] || b.ins != [])
  {
    if ops != [] {
      hide OldSide;
      BuildRuns(ops[..|ops| - 1]);
    }
  }

  /** The chunks of a section are its runs of edits: none is empty, and no two touch. */
  lemma ChunksAreRuns(ops: seq<Op>)
    ensures Runs(ChunksOf(ops), |OldSide(ops)| + 1)
  {
    BuildRuns(ops);
    hide BuildOf, OldSide;
  }
}
