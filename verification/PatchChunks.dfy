/** From operations to chunks, and from chunks to the edited file.

    ReplayHunks says in one pass what the sections of an update mean. The chunks
    the parser keeps instead, spliced into the file, give the same lines. */
module PatchChunks {
  import opened PatchModel

  // ----------------------------------------------------------- chunk building

  datatype Mode = KeepMode | AddMode | DeleteMode

  /** The section reader's variables. */
  datatype Build = Build(mode: Mode, context: seq<string>, del: seq<string>, ins: seq<string>, chunks: seq<Chunk>)

  /** The chunk under construction, when there is one, is closed. */
  function Flushed(b: Build): seq<Chunk>
    requires |b.del| <= |b.context|
  {
    if b.ins != [] || b.del != [] then b.chunks + [Chunk(|b.context| - |b.del|, b.del, b.ins)] else b.chunks
  }

  function Feed(b: Build, op: Op): (r: Build)
    requires |b.del| <= |b.context|
    ensures |r.del| <= |r.context|
  {
    match op
    case Del(line) => Build(DeleteMode, b.context + [line], b.del + [line], b.ins, b.chunks)
    case Ins(line) => Build(AddMode, b.context, b.del, b.ins + [line], b.chunks)
    case Keep(line) =>
      if b.mode == KeepMode then b.(context := b.context + [line])
      else Build(KeepMode, b.context + [line], [], [], Flushed(b))
  }

  function BuildOf(ops: seq<Op>): (b: Build)
    ensures |b.del| <= |b.context|
    ensures b.context == OldSide(ops)
    ensures b.mode == KeepMode ==> b.del == [] && b.ins == []
  {
    if ops == [] then Build(KeepMode, [], [], [], [])
    else Feed(BuildOf(ops[..|ops| - 1]), ops[|ops| - 1])
  }

  function ChunksOf(ops: seq<Op>): seq<Chunk> {
    Flushed(BuildOf(ops))
  }

  function Shift(chunks: seq<Chunk>, offset: nat): (r: seq<Chunk>)
    ensures |r| == |chunks|
    ensures forall k :: 0 <= k < |chunks| ==> r[k] == chunks[k].(origIndex := chunks[k].origIndex + offset)
  {
    seq(|chunks|, k requires 0 <= k < |chunks| => chunks[k].(origIndex := chunks[k].origIndex + offset))
  }

  /** The chunks an update action keeps for its sections. */
  function HunkChunks(hunks: seq<Hunk>): seq<Chunk> {
    if hunks == [] then []
    else HunkChunks(hunks[..|hunks| - 1]) + Shift(ChunksOf(hunks[|hunks| - 1].ops), hunks[|hunks| - 1].at)
  }

  // ---------------------------------------------------------------- splicing

  /** The lines written so far and the next original line to copy. */
  datatype Spliced = Spliced(dest: seq<string>, at: nat)

  function SpliceOne(orig: seq<string>, s: Spliced, chunk: Chunk): (r: Outcome<Spliced>)
    requires s.at <= |orig|
    ensures r.Ok? ==> r.value.at <= |orig|
    ensures !r.Panic? && !r.Diverge?
  {
    if chunk.origIndex > |orig| then Err(ChunkPastEnd(chunk.origIndex, |orig|))
    else if s.at > chunk.origIndex then Err(ChunkBackwards(s.at, chunk.origIndex))
    else
      var next := chunk.origIndex + |chunk.delLines|;
      if next > |orig| then Err(DeletesPastEnd(next - |orig|, |orig|))
      else Ok(Spliced(s.dest + orig[s.at..chunk.origIndex] + chunk.insLines, next))
  }

  function Splice(orig: seq<string>, s: Spliced, chunks: seq<Chunk>): (r: Outcome<Spliced>)
    requires s.at <= |orig|
    ensures r.Ok? ==> r.value.at <= |orig|
    ensures !r.Panic? && !r.Diverge?
    decreases |chunks|
  {
    if chunks == [] then Ok(s)
    else
      var next :- SpliceOne(orig, s, chunks[0]);
      Splice(orig, next, chunks[1..])
  }

  function Finish(orig: seq<string>, s: Spliced): seq<string>
    requires s.at <= |orig|
  {
    s.dest + orig[s.at..]
  }

  function Updated(orig: seq<string>, chunks: seq<Chunk>): Outcome<seq<string>> {
    var s :- Splice(orig, Spliced([], 0), chunks);
    Ok(Finish(orig, s))
  }

  /** Chunks a file of n lines can take: in order, apart, and inside the file. */
  ghost predicate ChunksFit(chunks: seq<Chunk>, n: nat) {
    && (forall k :: 0 <= k < |chunks| ==> chunks[k].origIndex + |chunks[k].delLines| <= n)
    && (forall j, k :: 0 <= j < k < |chunks| ==> chunks[j].origIndex + |chunks[j].delLines| <= chunks[k].origIndex)
  }

  function Inserted(chunks: seq<Chunk>): nat {
    if chunks == [] then 0 else |chunks[0].insLines| + Inserted(chunks[1..])
  }

  function Deleted(chunks: seq<Chunk>): nat {
    if chunks == [] then 0 else |chunks[0].delLines| + Deleted(chunks[1..])
  }

  lemma {:induction false} SpliceOkIff(orig: seq<string>, s: Spliced, chunks: seq<Chunk>)
    requires s.at <= |orig|
    ensures Splice(orig, s, chunks).Ok? <==>
      ChunksFit(chunks, |orig|) && (chunks != [] ==> s.at <= chunks[0].origIndex)
    ensures Splice(orig, s, chunks).Ok? ==>
      |Finish(orig, Splice(orig, s, chunks).value)| + Deleted(chunks) == |Finish(orig, s)| + Inserted(chunks)
    decreases |chunks|
  {
    if chunks != [] {
      var step, rest := SpliceOne(orig, s, chunks[0]), chunks[1..];
      if step.Ok? {
        SpliceOkIff(orig, step.value, rest);
        if ChunksFit(rest, |orig|) && (rest != [] ==> step.value.at <= rest[0].origIndex) {
          forall j, k | 0 <= j < k < |chunks|
            ensures chunks[j].origIndex + |chunks[j].delLines| <= chunks[k].origIndex
          {
            assert chunks[k] == rest[k - 1];
            if j > 0 {
              assert chunks[j] == rest[j - 1];
            } else {
              assert k == 1 || rest[0].origIndex + |rest[0].delLines| <= rest[k - 1].origIndex;
            }
          }
          assert ChunksFit(chunks, |orig|);
        }
      }
    }
  }

  /** getUpdatedFile succeeds exactly on chunks that fit, and then changes the
      line count by insertions minus deletions. */
  lemma UpdatedOkIff(orig: seq<string>, chunks: seq<Chunk>)
    ensures Updated(orig, chunks).Ok? <==> ChunksFit(chunks, |orig|)
    ensures Updated(orig, chunks).Ok? ==>
      |Updated(orig, chunks).value| + Deleted(chunks) == |orig| + Inserted(chunks)
  {
    SpliceOkIff(orig, Spliced([], 0), chunks);
  }

  lemma {:induction false} SpliceConcat(orig: seq<string>, s: Spliced, first: seq<Chunk>, second: seq<Chunk>)
    requires s.at <= |orig| && Splice(orig, s, first).Ok?
    ensures Splice(orig, s, first + second) == Splice(orig, Splice(orig, s, first).value, second)
    decreases |first|
  {
    if first == [] {
      assert first + second == second;
    } else {
      assert (first + second)[1..] == first[1..] + second;
      SpliceConcat(orig, SpliceOne(orig, s, first[0]).value, first[1..], second);
    }
  }

  // --------------------------------------------------------------- meaning

  /** What one operation at line `line` of the file writes: kept lines come from the file. */
  function Effect(file: seq<string>, line: nat, op: Op): seq<string>
    requires op.Keep? ==> line < |file|
  {
    match op
    case Keep(_) => [file[line]]
    case Del(_) => []
    case Ins(text) => [text]
  }

  /** A section found at line `at`, written after `before`. */
  function Replay(before: seq<string>, file: seq<string>, at: nat, ops: seq<Op>): seq<string>
    requires at + |OldSide(ops)| <= |file|
  {
    if ops == [] then before
    else
      var init := ops[..|ops| - 1];
      Replay(before, file, at, init) + Effect(file, at + |OldSide(init)|, ops[|ops| - 1])
  }

  function HunkEnd(h: Hunk): nat {
    h.at + |OldSide(h.ops)|
  }

  /** Sections that follow one another inside a file of n lines. */
  predicate InOrder(hunks: seq<Hunk>, n: nat) {
    && (forall k :: 0 <= k < |hunks| ==> HunkEnd(hunks[k]) <= n)
    && (forall j, k :: 0 <= j < k < |hunks| ==> HunkEnd(hunks[j]) <= hunks[k].at)
  }

  /** Everything up to the end of the last section: lines between sections are
      copied, each section is replayed where it was found. */
  function ReplayHunks(file: seq<string>, hunks: seq<Hunk>): seq<string>
    requires InOrder(hunks, |file|)
  {
    if hunks == [] then []
    else
      var init, h := hunks[..|hunks| - 1], hunks[|hunks| - 1];
      var from := if init == [] then 0 else HunkEnd(init[|init| - 1]);
      Replay(ReplayHunks(file, init) + file[from..h.at], file, h.at, h.ops)
  }

  function LastEnd(hunks: seq<Hunk>): nat {
    if hunks == [] then 0 else HunkEnd(hunks[|hunks| - 1])
  }

  /** The file after the sections of an update. */
  function Edited(file: seq<string>, hunks: seq<Hunk>): seq<string>
    requires InOrder(hunks, |file|)
  {
    ReplayHunks(file, hunks) + file[LastEnd(hunks)..]
  }

  /** The invariant of the section reader: what is spliced so far, the kept lines
      since the last chunk and the pending insertions make up `out`. */
  ghost predicate Means(file: seq<string>, at: nat, s: Spliced, b: Build, out: seq<string>)
    requires s.at <= |file| && |b.del| <= |b.context| && at + |b.context| <= |file|
  {
    var upto := at + |b.context| - |b.del|;
    var r := Splice(file, s, Shift(b.chunks, at));
    r.Ok? && r.value.at <= upto && out == r.value.dest + file[r.value.at..upto] + b.ins
  }

  /** Closing the chunk under construction starts afresh after the lines seen so far. */
  lemma FlushMeans(file: seq<string>, at: nat, s: Spliced, b: Build, out: seq<string>)
    requires s.at <= |file| && |b.del| <= |b.context| && at + |b.context| <= |file|
    requires Means(file, at, s, b, out)
    ensures
      var r := Splice(file, s, Shift(Flushed(b), at));
      r.Ok? && r.value.at <= at + |b.context| && out == r.value.dest + file[r.value.at..at + |b.context|]
  {
    if b.ins != [] || b.del != [] {
      var last := Chunk(at + |b.context| - |b.del|, b.del, b.ins);
      assert Shift(Flushed(b), at) == Shift(b.chunks, at) + [last];
      SpliceConcat(file, s, Shift(b.chunks, at), [last]);
      var r := Splice(file, s, Shift(b.chunks, at)).value;
      assert [last][1..] == [];
      assert Splice(file, r, [last]) == SpliceOne(file, r, last);
      assert file[at + |b.context|..at + |b.context|] == [];
    }
  }

  lemma FeedKeepMeans(file: seq<string>, at: nat, s: Spliced, b: Build, text: string, out: seq<string>)
    requires s.at <= |file| && |b.del| <= |b.context| && at + |b.context| < |file|
    requires b.mode == KeepMode ==> b.del == [] && b.ins == []
    requires Means(file, at, s, b, out)
    ensures Means(file, at, s, Feed(b, Keep(text)), out + [file[at + |b.context|]])
  {
    hide Splice;
    FlushMeans(file, at, s, b, out);
    var line := at + |b.context|;
    var next := Feed(b, Keep(text));
    assert next.chunks == Flushed(b) && next.ins == [] && next.del == [];
    var r := Splice(file, s, Shift(next.chunks, at)).value;
    assert file[r.at..line + 1] == file[r.at..line] + [file[line]];
    assert out + [file[line]] == r.dest + file[r.at..line + 1] + next.ins;
  }

  lemma FeedMeans(file: seq<string>, at: nat, s: Spliced, b: Build, op: Op, out: seq<string>)
    requires s.at <= |file| && |b.del| <= |b.context|
    requires at + |Feed(b, op).context| <= |file|
    requires b.mode == KeepMode ==> b.del == [] && b.ins == []
    requires Means(file, at, s, b, out)
    ensures Means(file, at, s, Feed(b, op), out + Effect(file, at + |b.context|, op))
  {
    hide Splice;
    match op
    case Del(_) => assert out + [] == out;
    case Ins(_) =>
    case Keep(text) => FeedKeepMeans(file, at, s, b, text, out);
  }

  lemma NothingMeans(file: seq<string>, at: nat, s: Spliced)
    requires s.at <= at <= |file|
    ensures Means(file, at, s, BuildOf([]), s.dest + file[s.at..at])
  {
    assert Shift(BuildOf([]).chunks, at) == [];
  }

  lemma {:induction false} BuildMeans(file: seq<string>, at: nat, ops: seq<Op>, s: Spliced, before: seq<string>)
    requires s.at <= at && at + |OldSide(ops)| <= |file|
    requires before == s.dest + file[s.at..at]
    ensures Means(file, at, s, BuildOf(ops), Replay(before, file, at, ops))
  {
    hide Means;
    if ops == [] {
      NothingMeans(file, at, s);
    } else {
      var init := ops[..|ops| - 1];
      assert |OldSide(init)| <= |OldSide(ops)|;
      BuildMeans(file, at, init, s, before);
      FeedMeans(file, at, s, BuildOf(init), ops[|ops| - 1], Replay(before, file, at, init));
    }
  }

  /** Splicing a section's chunks replays the section. */
  lemma SectionMeaning(file: seq<string>, at: nat, ops: seq<Op>, s: Spliced)
    requires s.at <= at && at + |OldSide(ops)| <= |file|
    ensures
      var r := Splice(file, s, Shift(ChunksOf(ops), at));
      var upto := at + |OldSide(ops)|;
      && r.Ok? && r.value.at <= upto
      && r.value.dest + file[r.value.at..upto] == Replay(s.dest + file[s.at..at], file, at, ops)
  {
    hide Splice;
    BuildMeans(file, at, ops, s, s.dest + file[s.at..at]);
    FlushMeans(file, at, s, BuildOf(ops), Replay(s.dest + file[s.at..at], file, at, ops));
  }

  /** Splicing these chunks accounts for the file's lines up to `upto`, as `out`. */
  ghost predicate Reaches(file: seq<string>, chunks: seq<Chunk>, upto: nat, out: seq<string>)
    requires upto <= |file|
  {
    var r := Splice(file, Spliced([], 0), chunks);
    r.Ok? && r.value.at <= upto && r.value.dest + file[r.value.at..upto] == out
  }

  lemma Glue(dest: seq<string>, file: seq<string>, i: nat, j: nat, k: nat, sofar: seq<string>)
    requires i <= j <= k <= |file| && dest + file[i..j] == sofar
    ensures dest + file[i..k] == sofar + file[j..k]
  {
    assert file[i..k] == file[i..j] + file[j..k];
  }

  lemma ReachesNext(file: seq<string>, chunks: seq<Chunk>, from: nat, sofar: seq<string>, at: nat, ops: seq<Op>)
    requires from <= at && at + |OldSide(ops)| <= |file|
    requires Reaches(file, chunks, from, sofar)
    ensures Reaches(file, chunks + Shift(ChunksOf(ops), at), at + |OldSide(ops)|,
                    Replay(sofar + file[from..at], file, at, ops))
  {
    var s := Splice(file, Spliced([], 0), chunks).value;
    SpliceConcat(file, Spliced([], 0), chunks, Shift(ChunksOf(ops), at));
    SectionMeaning(file, at, ops, s);
    Glue(s.dest, file, s.at, from, at, sofar);
  }

  lemma {:induction false} HunksMeaning(file: seq<string>, hunks: seq<Hunk>)
    requires InOrder(hunks, |file|)
    ensures LastEnd(hunks) <= |file| && Reaches(file, HunkChunks(hunks), LastEnd(hunks), ReplayHunks(file, hunks))
  {
    if hunks == [] {
      assert file[0..0] == [];
    } else {
      var init, h := hunks[..|hunks| - 1], hunks[|hunks| - 1];
      assert InOrder(init, |file|);
      hide Reaches;
      HunksMeaning(file, init);
      ReachesNext(file, HunkChunks(init), LastEnd(init), ReplayHunks(file, init), h.at, h.ops);
    }
  }

  /** The chunks of sections in order, spliced into the file, give exactly the
      edited file: the chunk representation loses nothing. */
  lemma UpdateMeaning(file: seq<string>, hunks: seq<Hunk>)
    requires InOrder(hunks, |file|)
    ensures Updated(file, HunkChunks(hunks)) == Ok(Edited(file, hunks))
  {
    HunksMeaning(file, hunks);
    var s := Splice(file, Spliced([], 0), HunkChunks(hunks)).value;
    Glue(s.dest, file, s.at, LastEnd(hunks), |file|, ReplayHunks(file, hunks));
    assert file[s.at..] == file[s.at..|file|] && file[LastEnd(hunks)..] == file[LastEnd(hunks)..|file|];
  }

  /** Where every line the section names is there byte for byte, replaying it
      writes the section's new side. */
  lemma {:induction false} ExactReplay(before: seq<string>, file: seq<string>, at: nat, ops: seq<Op>)
    requires at + |OldSide(ops)| <= |file|
    requires file[at..at + |OldSide(ops)|] == OldSide(ops)
    ensures Replay(before, file, at, ops) == before + NewSide(ops)
  {
    if ops != [] {
      var init := ops[..|ops| - 1];
      var n := |OldSide(init)|;
      assert OldSide(ops)[..n] == OldSide(init);
      assert file[at..at + n] == file[at..at + |OldSide(ops)|][..n];
      if ops[|ops| - 1].Keep? {
        assert file[at + n] == file[at..at + |OldSide(ops)|][n];
      }
      ExactReplay(before, file, at, init);
    }
  }
}
