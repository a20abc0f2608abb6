/** Masking volatile /tmp/tmp.* paths in recorded output
    (crates/cachyos-kernel-manager-casefile/src/normalize.rs). */
module TmpPaths {
  import opened Text

  const TMP := "/tmp/tmp."

  /** The length of the alphanumeric run `s` starts with. */
  function RunLength(s: string): (n: nat)
    ensures n <= |s|
    ensures forall i | 0 <= i < n :: IsAsciiAlphanumeric(s[i])
    ensures n < |s| ==> !IsAsciiAlphanumeric(s[n])
  {
    if s == "" || !IsAsciiAlphanumeric(s[0]) then 0 else 1 + RunLength(s[1..])
  }

  const CROSS := "X"

  /** A marker like TMP: it cannot overlap itself and does not start inside a run. */
  ghost predicate IsMarker(p: string) {
    p != "" && BorderFree(p) && !IsAsciiAlphanumeric(p[0])
  }

  /** What the masking loop computes for the marker `p`, one occurrence at a time. */
  function Masked(s: string, p: string): string
    decreases |s|
  {
    var idx := FindFrom(s, p, 0);
    if idx.None? || p == "" then s
    else
      var rest := s[idx.value + |p|..];
      s[..idx.value] + (p + CROSS) + Masked(rest[RunLength(rest)..], p)
  }

  method Mask(s: string) returns (out: string)
    ensures out == Masked(s, TMP)
  {
    out := MaskMarker(s, TMP);
  }

  method MaskMarker(s: string, marker: string) returns (out: string)
    requires marker != ""
    ensures out == Masked(s, marker)
  {
    hide FindFrom, RunLength, Masked;
    out := "";
    var rest := s;
    while FindFrom(rest, marker, 0).Some?
      invariant out + Masked(rest, marker) == Masked(s, marker)
      decreases |rest|
    {
      var idx := FindFrom(rest, marker, 0).value;
      var after := rest[idx + |marker|..];
      var end := RunLength(after);
      MaskedUnfolds(rest, marker);
      ghost var more := Masked(after[end..], marker);
      assert out + (rest[..idx] + (marker + CROSS) + more) == out + rest[..idx] + (marker + CROSS) + more;
      out := out + rest[..idx];
      out := out + (marker + CROSS);
      rest := after[end..];
    }
    NoneMasked(rest, marker);
    out := out + rest;
  }

  lemma NoneMasked(s: string, p: string)
    requires FindFrom(s, p, 0).None?
    ensures Masked(s, p) == s
  {
  }

  lemma MaskedUnfolds(s: string, p: string)
    requires p != "" && FindFrom(s, p, 0).Some?
    ensures var idx := FindFrom(s, p, 0).value;
            var after := s[idx + |p|..];
            Masked(s, p) == s[..idx] + (p + CROSS) + Masked(after[RunLength(after)..], p)
  {
    hide FindFrom, RunLength;
  }

  // ---------- text as chunks around volatile runs ----------

  /** chunk, marker, run, chunk, marker, run, ..., chunk */
  function Assemble(chunks: seq<string>, p: string, runs: seq<string>): string
    requires |chunks| == |runs| + 1
  {
    if runs == [] then chunks[0]
    else chunks[0] + p + runs[0] + Assemble(chunks[1..], p, runs[1..])
  }

  predicate IsRun(s: string) {
    forall c | c in s :: IsAsciiAlphanumeric(c)
  }

  predicate StartsRun(s: string) {
    s != "" && IsAsciiAlphanumeric(s[0])
  }

  /** Chunks hold no marker of their own, and the runs between them are whole. */
  ghost predicate Pieces(chunks: seq<string>, p: string, runs: seq<string>) {
    && |chunks| == |runs| + 1
    && (forall i | 0 <= i < |chunks| :: !Contains(chunks[i], p))
    && (forall i | 0 <= i < |runs| :: IsRun(runs[i]))
    && forall i | 1 <= i < |chunks| :: !StartsRun(chunks[i])
  }

  function Chunks(s: string, p: string): (r: seq<string>)
    ensures r != []
    decreases |s|
  {
    var idx := FindFrom(s, p, 0);
    if idx.None? || p == "" then [s]
    else
      var rest := s[idx.value + |p|..];
      [s[..idx.value]] + Chunks(rest[RunLength(rest)..], p)
  }

  function Runs(s: string, p: string): seq<string>
    decreases |s|
  {
    var idx := FindFrom(s, p, 0);
    if idx.None? || p == "" then []
    else
      var rest := s[idx.value + |p|..];
      [rest[..RunLength(rest)]] + Runs(rest[RunLength(rest)..], p)
  }

  lemma TmpIsMarker()
    ensures IsMarker(TMP)
  {
    forall d | 0 < d < |TMP| ensures TMP[d..] != TMP[..|TMP| - d] {
      assert TMP[d..][|TMP| - d - 1] == '.';
      assert TMP[..|TMP| - d][|TMP| - d - 1] == TMP[|TMP| - d - 1] != '.';
    }
  }

  /** A chunk without a marker, then a marker: that one is the first occurrence. */
  lemma FirstMarker(chunk: string, p: string, tail: string)
    requires IsMarker(p) && !Contains(chunk, p)
    ensures FindFrom(chunk + p + tail, p, 0) == Some(|chunk|)
  {
    var s := chunk + p + tail;
    assert s[|chunk|..|chunk| + |p|] == p;
    assert OccursAt(s, p, |chunk|);
    var i := FindFrom(s, p, 0).value;
    if i < |chunk| {
      NoOverlap(s, p, i, |chunk|);
      assert s == chunk + (p + tail);
      OccursInConcat(chunk, p + tail, p, i);
    }
  }

  lemma WholeRun(run: string, tail: string)
    requires IsRun(run) && !StartsRun(tail)
    ensures RunLength(run + tail) == |run|
  {
    var s := run + tail;
    assert forall i | 0 <= i < |run| :: s[i] == run[i] && run[i] in run;
    assert tail != "" ==> s[|run|] == tail[0];
  }

  lemma NothingToCut(s: string, p: string)
    requires FindFrom(s, p, 0).None?
    ensures Chunks(s, p) == [s] && Runs(s, p) == [] && Masked(s, p) == s && !Contains(s, p)
  {
  }

  /** A text that starts with a chunk, a marker and a whole run comes apart there. */
  lemma ComesApart(chunk: string, p: string, run: string, tail: string)
    requires IsMarker(p) && !Contains(chunk, p) && IsRun(run) && !StartsRun(tail)
    ensures var s := chunk + p + run + tail;
            && Chunks(s, p) == [chunk] + Chunks(tail, p)
            && Runs(s, p) == [run] + Runs(tail, p)
            && Masked(s, p) == chunk + (p + CROSS) + Masked(tail, p)
  {
    hide FindFrom, RunLength;
    var s, rest := chunk + p + run + tail, run + tail;
    assert s == chunk + p + rest;
    FirstMarker(chunk, p, rest);
    WholeRun(run, tail);
    assert s[..|chunk|] == chunk && s[|chunk| + |p|..] == rest;
    assert rest[..|run|] == run && rest[|run|..] == tail;
  }

  /** The first marker of a text, with the chunk before it, the run after it and what follows. */
  lemma CutAtFirst(s: string, p: string) returns (chunk: string, run: string, tail: string)
    requires p != "" && FindFrom(s, p, 0).Some?
    ensures s == chunk + p + run + tail
    ensures !Contains(chunk, p) && IsRun(run) && !StartsRun(tail)
  {
    hide FindFrom, RunLength;
    var idx := FindFrom(s, p, 0).value;
    var rest := s[idx + |p|..];
    var n := RunLength(rest);
    chunk, run, tail := s[..idx], rest[..n], rest[n..];
    assert s == chunk + p + rest && rest == run + tail;
    ChunkBefore(s, p, idx);
  }

  lemma ChunkBefore(s: string, p: string, idx: nat)
    requires FindFrom(s, p, 0) == Some(idx) && p != ""
    ensures !Contains(s[..idx], p)
  {
    forall i: nat ensures !OccursAt(s[..idx], p, i) {
      assert s == s[..idx] + s[idx..];
      OccursInConcat(s[..idx], s[idx..], p, i);
    }
  }

  lemma AssembleStart(chunks: seq<string>, p: string, runs: seq<string>)
    requires |chunks| == |runs| + 1 && !StartsRun(chunks[0]) && IsMarker(p)
    ensures !StartsRun(Assemble(chunks, p, runs))
  {
    if runs != [] {
      var all := Assemble(chunks, p, runs);
      assert all[0] == if chunks[0] == "" then p[0] else chunks[0][0];
    }
  }

  lemma PiecesTail(chunks: seq<string>, p: string, runs: seq<string>)
    requires Pieces(chunks, p, runs) && runs != []
    ensures Pieces(chunks[1..], p, runs[1..]) && !StartsRun(chunks[1..][0])
  {
  }

  /** The pieces of an assembled text are the ones it was assembled from. */
  lemma {:induction false} PiecesUnique(chunks: seq<string>, p: string, runs: seq<string>)
    requires IsMarker(p) && Pieces(chunks, p, runs)
    ensures Chunks(Assemble(chunks, p, runs), p) == chunks && Runs(Assemble(chunks, p, runs), p) == runs
    decreases |runs|
  {
    hide FindFrom, RunLength, Masked, Chunks, Runs;
    if runs == [] {
      assert FindFrom(chunks[0], p, 0).None?;
      NothingToCut(chunks[0], p);
    } else {
      var tail := Assemble(chunks[1..], p, runs[1..]);
      PiecesTail(chunks, p, runs);
      PiecesUnique(chunks[1..], p, runs[1..]);
      AssembleStart(chunks[1..], p, runs[1..]);
      ComesApart(chunks[0], p, runs[0], tail);
      assert [chunks[0]] + chunks[1..] == chunks && [runs[0]] + runs[1..] == runs;
    }
  }

  lemma ChunksStart(s: string, p: string)
    requires !StartsRun(s)
    ensures !StartsRun(Chunks(s, p)[0])
  {
  }

  /** Every text is assembled from its pieces. */
  lemma {:induction false} PiecesExist(s: string, p: string)
    requires IsMarker(p)
    ensures Pieces(Chunks(s, p), p, Runs(s, p)) && Assemble(Chunks(s, p), p, Runs(s, p)) == s
    decreases |s|
  {
    hide FindFrom, RunLength, Masked, Chunks, Runs;
    if FindFrom(s, p, 0).None? {
      NothingToCut(s, p);
    } else {
      var chunk, run, tail := CutAtFirst(s, p);
      ComesApart(chunk, p, run, tail);
      PiecesExist(tail, p);
      ChunksStart(tail, p);
      assert ([chunk] + Chunks(tail, p))[1..] == Chunks(tail, p) && ([run] + Runs(tail, p))[1..] == Runs(tail, p);
    }
  }

  function Crosses(n: nat): seq<string> {
    seq(n, _ => CROSS)
  }

  /** Masking keeps every chunk, in order, and puts a cross for every run. */
  lemma {:induction false} MaskedExactly(s: string, p: string)
    requires IsMarker(p)
    ensures |Chunks(s, p)| == |Runs(s, p)| + 1
    ensures Masked(s, p) == Assemble(Chunks(s, p), p, Crosses(|Runs(s, p)|))
    decreases |s|
  {
    hide FindFrom, RunLength, Masked, Chunks, Runs;
    if FindFrom(s, p, 0).None? {
      NothingToCut(s, p);
    } else {
      var chunk, run, tail := CutAtFirst(s, p);
      ComesApart(chunk, p, run, tail);
      MaskedExactly(tail, p);
      var chunks, crosses := [chunk] + Chunks(tail, p), Crosses(|Runs(s, p)|);
      assert crosses[1..] == Crosses(|Runs(tail, p)|) && chunks[1..] == Chunks(tail, p);
      assert Assemble(chunks, p, crosses) == chunk + p + CROSS + Assemble(chunks[1..], p, crosses[1..]);
    }
  }

  lemma CrossesPieces(s: string, p: string)
    requires IsMarker(p)
    ensures Pieces(Chunks(s, p), p, Crosses(|Runs(s, p)|))
  {
    PiecesExist(s, p);
    assert IsRun(CROSS);
  }

  /** Masking is idempotent and canonical: two texts mask alike exactly when they differ at most in
      the alphanumeric runs that directly follow a path. */
  lemma {:induction false} MaskCanonical(s: string, t: string)
    ensures Masked(Masked(s, TMP), TMP) == Masked(s, TMP)
    ensures Masked(s, TMP) == Masked(t, TMP) <==> Chunks(s, TMP) == Chunks(t, TMP)
  {
    TmpIsMarker();
    MarkerCanonical(s, t, TMP);
  }

  lemma {:induction false} MarkerCanonical(s: string, t: string, p: string)
    requires IsMarker(p)
    ensures Masked(Masked(s, p), p) == Masked(s, p)
    ensures Masked(s, p) == Masked(t, p) <==> Chunks(s, p) == Chunks(t, p)
  {
    MaskedExactly(s, p);
    MaskedExactly(t, p);
    CrossesPieces(s, p);
    CrossesPieces(t, p);
    PiecesUnique(Chunks(s, p), p, Crosses(|Runs(s, p)|));
    PiecesUnique(Chunks(t, p), p, Crosses(|Runs(t, p)|));
    MaskedExactly(Masked(s, p), p);
  }

  /** In particular, texts assembled around the same chunks mask to the same text. */
  lemma {:induction false} RunsDoNotMatter(chunks: seq<string>, runs: seq<string>, other: seq<string>)
    requires Pieces(chunks, TMP, runs) && Pieces(chunks, TMP, other)
    ensures Masked(Assemble(chunks, TMP, runs), TMP) == Masked(Assemble(chunks, TMP, other), TMP)
  {
    TmpIsMarker();
    PiecesUnique(chunks, TMP, runs);
    PiecesUnique(chunks, TMP, other);
    MaskCanonical(Assemble(chunks, TMP, runs), Assemble(chunks, TMP, other));
  }
}
