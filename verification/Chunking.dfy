/** Overlapping text windows: how a long text is cut into passages. */
module Chunking {
  import opened Common

  // --- White space -----------------------------------------------------------

  predicate IsSpace(c: char) {
    || '\t' <= c <= '\r' || '\U{1C}' <= c <= ' ' || c == '\U{85}' || c == '\U{A0}' || c == '\U{1680}'
    || '\U{2000}' <= c <= '\U{200A}' || c == '\U{2028}' || c == '\U{2029}' || c == '\U{202F}' || c == '\U{205F}'
    || c == '\U{3000}'
  }

  ghost predicate AllSpace(s: string) { forall c <- s :: IsSpace(c) }

  // The place of the first character that is not white space, and just past the last.
  function TrimLeft(s: string, lo: nat, hi: nat): (a: nat)
    requires lo <= hi <= |s|
    ensures lo <= a <= hi
    decreases hi - lo
  {
    if lo < hi && IsSpace(s[lo]) then TrimLeft(s, lo + 1, hi) else lo
  }

  function TrimRight(s: string, lo: nat, hi: nat): (b: nat)
    requires lo <= hi <= |s|
    ensures lo <= b <= hi
  {
    if lo < hi && IsSpace(s[hi - 1]) then TrimRight(s, lo, hi - 1) else hi
  }

  lemma {:induction false} TrimLeftIs(s: string, lo: nat, hi: nat)
    requires lo <= hi <= |s|
    ensures var a := TrimLeft(s, lo, hi); AllSpace(s[lo..a]) && (a < hi ==> !IsSpace(s[a]))
    decreases hi - lo
  {
    if lo < hi && IsSpace(s[lo]) {
      TrimLeftIs(s, lo + 1, hi);
      assert s[lo..TrimLeft(s, lo, hi)] == [s[lo]] + s[lo + 1..TrimLeft(s, lo, hi)];
    }
  }

  lemma {:induction false} TrimRightIs(s: string, lo: nat, hi: nat)
    requires lo <= hi <= |s|
    ensures var b := TrimRight(s, lo, hi); AllSpace(s[b..hi]) && (lo < b ==> !IsSpace(s[b - 1]))
  {
    if lo < hi && IsSpace(s[hi - 1]) {
      TrimRightIs(s, lo, hi - 1);
      assert s[TrimRight(s, lo, hi)..hi] == s[TrimRight(s, lo, hi)..hi - 1] + [s[hi - 1]];
    }
  }

  // s[lo..hi] without the white space at its ends.
  function Trimmed(s: string, lo: nat, hi: nat): string
    requires lo <= hi <= |s|
  {
    var a := TrimLeft(s, lo, hi);
    s[a..TrimRight(s, a, hi)]
  }

  function Strip(s: string): string { Trimmed(s, 0, |s|) }

  ghost predicate IsStripped(s: string) { s == [] || (!IsSpace(s[0]) && !IsSpace(s[|s| - 1])) }

  // Only white space goes, all of it at the ends.
  lemma StripKeepsText(s: string)
    ensures IsStripped(Strip(s))
    ensures exists a, b :: 0 <= a <= b <= |s| && Strip(s) == s[a..b] && AllSpace(s[..a]) && AllSpace(s[b..])
  {
    var a := TrimLeft(s, 0, |s|);
    var b := TrimRight(s, a, |s|);
    TrimLeftIs(s, 0, |s|);
    TrimRightIs(s, a, |s|);
    assert 0 <= a <= b <= |s| && Strip(s) == s[a..b] && AllSpace(s[..a]) && AllSpace(s[b..]);
  }

  // --- Windows ---------------------------------------------------------------

  datatype Window = Window(start: nat, end: nat)

  // str.rfind(" ", lo, hi)
  function LastSpace(s: string, lo: nat, hi: nat): (r: int)
    requires hi <= |s|
    ensures r == -1 || (lo <= r < hi && s[r] == ' ')
  {
    if hi <= lo then -1 else if s[hi - 1] == ' ' then hi - 1 else LastSpace(s, lo, hi - 1)
  }

  lemma {:induction false} LastSpaceIs(s: string, lo: nat, hi: nat)
    requires hi <= |s|
    ensures forall k | lo <= k < hi && k > LastSpace(s, lo, hi) :: s[k] != ' '
  {
    if lo < hi && s[hi - 1] != ' ' {
      LastSpaceIs(s, lo, hi - 1);
    }
  }

  function Clamp(overlap: int, size: int): (o: nat)
    requires size > 0
    ensures o <= size / 2 && o <= Max(0, overlap)
    ensures 0 <= overlap <= size / 2 ==> o == overlap
    ensures overlap > size / 2 ==> o == size / 2
  {
    Max(0, Min(overlap, size / 2))
  }

  function Most(size: nat): nat { size * 85 / 100 }

  function EndOf(s: string, size: nat, start: nat): nat
    requires size > 0 && start < |s|
  {
    var end := Min(|s|, start + size);
    if end == |s| then end
    else
      var space := LastSpace(s, start + Most(size), end);
      if space > start then space else end
  }

  function NextStart(start: nat, end: nat, overlap: nat): nat { Max(start + 1, end - overlap) }

  function Windows(s: string, size: nat, overlap: nat, start: nat): seq<Window>
    requires size > 0
    decreases |s| - start
  {
    if start >= |s| then []
    else
      var end := EndOf(s, size, start);
      [Window(start, end)] + if end >= |s| then [] else Windows(s, size, overlap, NextStart(start, end, overlap))
  }

  ghost predicate Inside(s: string, ws: seq<Window>) { forall w <- ws :: w.start < w.end <= |s| }

  // A piece is kept if anything is left of it.
  function Kept(piece: string): seq<string> { if piece == [] then [] else [piece] }

  function PieceIn(s: string, w: Window): seq<string> {
    if w.start <= w.end <= |s| then Kept(Trimmed(s, w.start, w.end)) else []
  }

  function Pieces(s: string, ws: seq<Window>): seq<string> {
    if ws == [] then [] else PieceIn(s, ws[0]) + Pieces(s, ws[1..])
  }

  datatype ChunkError = SizeNotPositive

  // The passages of a stripped, non-empty text.
  function Passages(s: string, size: nat, overlap: nat): seq<string>
    requires size > 0
  {
    Pieces(s, Windows(s, size, overlap, 0))
  }

  function Chunks(text: string, size: int, overlap: int): Result<seq<string>, ChunkError> {
    if Strip(text) == [] then Ok([])
    else if size <= 0 then Err(SizeNotPositive)
    else Ok(Passages(Strip(text), size, Clamp(overlap, size)))
  }

  // Only a blank text has no passages, whatever the size; only a text with something to
  // cut is refused a bad size.
  lemma ChunksExactly(text: string, size: int, overlap: int)
    ensures Chunks(text, size, overlap) == Ok([]) <==> AllSpace(text)
    ensures Chunks(text, size, overlap).Err? <==> !AllSpace(text) && size <= 0
  {
    StripEmpty(text);
    StripKeepsText(text);
    if !AllSpace(text) && size > 0 {
      PassagesNonEmpty(Strip(text), size, Clamp(overlap, size));
    }
  }

  method ChunkText(text: string, size: int, overlap: int) returns (r: Result<seq<string>, ChunkError>)
    ensures r == Chunks(text, size, overlap)
  {
    var s := Strip(text);
    if s == [] {
      return Ok([]);
    }
    if size <= 0 {
      return Err(SizeNotPositive);
    }
    var lookback := Clamp(overlap, size);
    var out := CutUp(s, size, lookback);
    r := Ok(out);
  }

  method CutUp(s: string, size: nat, overlap: nat) returns (out: seq<string>)
    requires size > 0 && s != []
    ensures out == Passages(s, size, overlap)
  {
    out := [];
    var start, n := 0, |s|;
    ghost var total := Passages(s, size, overlap);
    assert total == Coming(s, size, overlap, start);
    while start < n
      invariant start < n && out + Coming(s, size, overlap, start) == total
    {
      CutStep(s, size, overlap, start, out);
      var end := EndOf(s, size, start);
      var piece := Trimmed(s, start, end);
      out := out + Kept(piece);
      if end >= n {
        break;
      }
      start := NextStart(start, end, overlap);
    }
  }

  ghost function Coming(s: string, size: nat, overlap: nat, start: nat): seq<string>
    requires size > 0
  {
    Pieces(s, Windows(s, size, overlap, start))
  }

  lemma CutStep(s: string, size: nat, overlap: nat, start: nat, out: seq<string>)
    requires size > 0 && start < |s|
    ensures start < EndOf(s, size, start) <= |s|
    ensures var end := EndOf(s, size, start); var out' := out + Kept(Trimmed(s, start, end));
            out + Coming(s, size, overlap, start)
               == if end < |s| then out' + Coming(s, size, overlap, NextStart(start, end, overlap)) else out'
  {
    var end := EndOf(s, size, start);
    EndIs(s, size, start);
    var ws, w := Windows(s, size, overlap, start), Window(start, end);
    var rest := if end < |s| then Windows(s, size, overlap, NextStart(start, end, overlap)) else [];
    assert ws == [w] + rest;
    PiecesFirst(s, w, rest);
  }

  lemma PiecesFirst(s: string, w: Window, rest: seq<Window>)
    ensures Pieces(s, [w] + rest) == PieceIn(s, w) + Pieces(s, rest)
  {
    assert ([w] + rest)[1..] == rest;
  }

  lemma StripEmpty(text: string)
    ensures Strip(text) == [] <==> AllSpace(text)
  {
    var a := TrimLeft(text, 0, |text|);
    TrimLeftIs(text, 0, |text|);
    TrimRightIs(text, a, |text|);
    if a < |text| {
      assert text[a] in text;
    }
    if Strip(text) == [] {
      forall c <- text ensures IsSpace(c) {
        var k :| 0 <= k < |text| && text[k] == c;
      }
    }
  }

  lemma {:induction false} WindowsInside(s: string, size: nat, overlap: nat, start: nat)
    requires size > 0
    ensures Inside(s, Windows(s, size, overlap, start))
    decreases |s| - start
  {
    if start < |s| {
      var end := EndOf(s, size, start);
      if end < |s| {
        WindowsInside(s, size, overlap, NextStart(start, end, overlap));
      }
    }
  }

  // --- What the windows promise ----------------------------------------------

  // How far each step moves on at least.
  function Stride(size: nat, overlap: nat): nat { Max(1, Most(size) - overlap) }

  // Every window is narrow enough, the windows leave no gap and run to the end of the
  // text, each starts a stride after the one before, and none ends before it.
  ghost predicate Tiles(s: string, size: nat, overlap: nat, start: nat, ws: seq<Window>) {
    && ws != [] && ws[0].start == start && ws[|ws| - 1].end == |s|
    && (forall k | 0 <= k < |ws| :: ws[k].start < ws[k].end <= |s| && ws[k].end - ws[k].start <= size)
    && (forall k | 0 < k < |ws| :: Follows(s, size, overlap, ws[k - 1], ws[k]))
  }

  ghost predicate Follows(s: string, size: nat, overlap: nat, v: Window, w: Window) {
    v.end < |s| && v.start + Stride(size, overlap) <= w.start <= v.end <= w.end
  }

  // A window ends at the text's end, at a space, or where no space was near.
  ghost predicate EndsWell(s: string, size: nat, w: Window) {
    || w.end == |s|
    || (w.end < |s| && s[w.end] == ' ' && w.start + Most(size) <= w.end)
    || (w.end == w.start + size && forall k | w.start + Most(size) <= k < w.end <= |s| && k > w.start :: s[k] != ' ')
  }

  lemma EndIs(s: string, size: nat, start: nat)
    requires size > 0 && start < |s|
    ensures start < EndOf(s, size, start) <= Min(|s|, start + size)
    ensures EndOf(s, size, start) < |s| ==> start + Most(size) <= EndOf(s, size, start)
    ensures EndsWell(s, size, Window(start, EndOf(s, size, start)))
  {
    LastSpaceIs(s, start + Most(size), Min(|s|, start + size));
  }

  lemma StepFollows(s: string, size: nat, overlap: nat, start: nat)
    requires size > 0 && overlap <= size / 2 && start < |s| && EndOf(s, size, start) < |s|
    ensures var end := EndOf(s, size, start); var next := NextStart(start, end, overlap);
            next <= end && Follows(s, size, overlap, Window(start, end), Window(next, EndOf(s, size, next)))
  {
    var end := EndOf(s, size, start);
    EndIs(s, size, start);
    EndIs(s, size, NextStart(start, end, overlap));
  }

  lemma {:induction false} WindowsTile(s: string, size: nat, overlap: nat, start: nat)
    requires size > 0 && overlap <= size / 2 && start < |s|
    ensures Tiles(s, size, overlap, start, Windows(s, size, overlap, start))
    decreases |s| - start
  {
    var end := EndOf(s, size, start);
    EndIs(s, size, start);
    if end < |s| {
      var next := NextStart(start, end, overlap);
      StepFollows(s, size, overlap, start);
      WindowsTile(s, size, overlap, next);
      TilesBefore(s, size, overlap, Window(start, end), Windows(s, size, overlap, next));
    }
  }

  lemma TilesBefore(s: string, size: nat, overlap: nat, w: Window, ws: seq<Window>)
    requires Tiles(s, size, overlap, if ws == [] then 0 else ws[0].start, ws) && Follows(s, size, overlap, w, ws[0])
    requires w.start < w.end <= |s| && w.end - w.start <= size
    ensures Tiles(s, size, overlap, w.start, [w] + ws)
  {
  }

  // A window splits no word unless it has to.
  lemma {:induction false} WindowsEndWell(s: string, size: nat, overlap: nat, start: nat)
    requires size > 0
    ensures forall w <- Windows(s, size, overlap, start) :: EndsWell(s, size, w)
    decreases |s| - start
  {
    if start < |s| {
      var end := EndOf(s, size, start);
      EndIs(s, size, start);
      if end < |s| {
        WindowsEndWell(s, size, overlap, NextStart(start, end, overlap));
      }
    }
  }

  // In the last 15% of a full window, and past its first character.
  ghost predicate Near(size: nat, w: Window, k: nat) {
    w.start < k < w.start + size && 100 * (k - w.start) > 85 * size - 100
  }

  // Where a window ends: at the text's end if that is in reach; else at the last space of
  // its last 15%; else at its full size.
  ghost predicate BreaksRight(s: string, size: nat, w: Window) {
    && w.end <= |s|
    && (w.end == |s| <==> w.start + size >= |s|)
    && (w.end < |s| ==>
          || (Near(size, w, w.end) && s[w.end] == ' '
              && forall k: nat | w.end < k < w.start + size && k < |s| :: s[k] != ' ')
          || (w.end == w.start + size && forall k: nat | Near(size, w, k) && k < |s| :: s[k] != ' '))
  }

  lemma EndExactly(s: string, size: nat, start: nat)
    requires size > 0 && start < |s|
    ensures BreaksRight(s, size, Window(start, EndOf(s, size, start)))
  {
    EndIs(s, size, start);
    LastSpaceIs(s, start + Most(size), Min(|s|, start + size));
  }

  // A window starts with the last `overlap` characters of the one before, or, where that
  // was no wider, one character on.
  ghost predicate Repeats(overlap: nat, v: Window, w: Window) {
    v.start <= v.end && w.start == if v.end - v.start > overlap then v.end - overlap else v.start + 1
  }

  // Together these fix every window.
  lemma {:induction false} WindowsExactly(s: string, size: nat, overlap: nat, start: nat)
    requires size > 0 && start < |s|
    ensures var ws := Windows(s, size, overlap, start);
            && ws != [] && ws[0].start == start && ws[|ws| - 1].end == |s|
            && (forall k | 0 <= k < |ws| :: BreaksRight(s, size, ws[k]))
            && (forall k | 0 < k < |ws| :: Repeats(overlap, ws[k - 1], ws[k]))
    decreases |s| - start
  {
    var end := EndOf(s, size, start);
    EndIs(s, size, start);
    EndExactly(s, size, start);
    if end < |s| {
      WindowsExactly(s, size, overlap, NextStart(start, end, overlap));
    }
  }

  lemma {:induction false} StridesAddUp(s: string, size: nat, overlap: nat, start: nat, ws: seq<Window>, k: nat)
    requires Tiles(s, size, overlap, start, ws) && k < |ws|
    ensures start + k * Stride(size, overlap) <= ws[k].start
  {
    if k > 0 {
      StridesAddUp(s, size, overlap, start, ws, k - 1);
      assert Follows(s, size, overlap, ws[k - 1], ws[k]);
      assert k * Stride(size, overlap) == (k - 1) * Stride(size, overlap) + Stride(size, overlap);
    }
  }

  lemma {:induction false} NoMorePieces(s: string, ws: seq<Window>)
    ensures |Pieces(s, ws)| <= |ws|
  {
    if ws != [] {
      NoMorePieces(s, ws[1..]);
    }
  }

  // The number of passages is linear in the text.
  lemma PassagesLinear(s: string, size: nat, overlap: nat)
    requires size > 0 && overlap <= size / 2 && s != []
    ensures |Passages(s, size, overlap)| <= |Windows(s, size, overlap, 0)|
    ensures (|Windows(s, size, overlap, 0)| - 1) * Stride(size, overlap) < |s|
  {
    var ws := Windows(s, size, overlap, 0);
    WindowsTile(s, size, overlap, 0);
    StridesAddUp(s, size, overlap, 0, ws, |ws| - 1);
    NoMorePieces(s, ws);
    assert ws[|ws| - 1].start < |s|;
  }

  // The raw windows, laid down one by one at their starts, give the text back.
  ghost function Rejoined(s: string, ws: seq<Window>, n: nat): string
    requires n <= |ws| && Inside(s, ws)
  {
    if n == 0 then []
    else
      assert ws[n - 1] in ws;
      var before, w := Rejoined(s, ws, n - 1), ws[n - 1];
      before[..Min(|before|, w.start)] + s[w.start..w.end]
  }

  lemma {:induction false} RejoinedIs(s: string, size: nat, overlap: nat, ws: seq<Window>, n: nat)
    requires Tiles(s, size, overlap, 0, ws) && 0 < n <= |ws| && Inside(s, ws)
    ensures Rejoined(s, ws, n) == s[..ws[n - 1].end]
  {
    if n > 1 {
      RejoinedIs(s, size, overlap, ws, n - 1);
      assert Follows(s, size, overlap, ws[n - 2], ws[n - 1]);
    }
  }

  lemma WindowsRejoin(s: string, size: nat, overlap: nat)
    requires size > 0 && overlap <= size / 2 && s != []
    ensures Inside(s, Windows(s, size, overlap, 0))
    ensures Rejoined(s, Windows(s, size, overlap, 0), |Windows(s, size, overlap, 0)|) == s
  {
    WindowsInside(s, size, overlap, 0);
    WindowsTile(s, size, overlap, 0);
    var ws := Windows(s, size, overlap, 0);
    RejoinedIs(s, size, overlap, ws, |ws|);
    assert s[..|s|] == s;
  }

  // --- What the passages promise ---------------------------------------------

  // A passage: at most size characters of a window, all but white space at its ends.
  ghost predicate PassageOf(s: string, size: nat, w: Window, piece: string) {
    && 0 < |piece| <= size && IsStripped(piece)
    && exists a, b ::
         w.start <= a < b <= w.end <= |s| && piece == s[a..b] && AllSpace(s[w.start..a]) && AllSpace(s[b..w.end])
  }

  lemma TrimmedIsPassage(s: string, size: nat, w: Window)
    requires w.start < w.end <= |s| && w.end - w.start <= size && Trimmed(s, w.start, w.end) != []
    ensures PassageOf(s, size, w, Trimmed(s, w.start, w.end))
  {
    var a := TrimLeft(s, w.start, w.end);
    var b := TrimRight(s, a, w.end);
    TrimLeftIs(s, w.start, w.end);
    TrimRightIs(s, a, w.end);
    assert w.start <= a < b <= w.end <= |s| && Trimmed(s, w.start, w.end) == s[a..b] && AllSpace(s[w.start..a])
           && AllSpace(s[b..w.end]);
  }

  lemma {:induction false} PiecesArePassages(s: string, size: nat, ws: seq<Window>, piece: string)
    requires Inside(s, ws) && (forall w <- ws :: w.end - w.start <= size) && piece in Pieces(s, ws)
    ensures exists w <- ws :: PassageOf(s, size, w, piece)
  {
    if ws != [] {
      assert ws[0] in ws;
      if piece == Trimmed(s, ws[0].start, ws[0].end) != [] {
        TrimmedIsPassage(s, size, ws[0]);
      } else {
        PiecesArePassages(s, size, ws[1..], piece);
        var w :| w in ws[1..] && PassageOf(s, size, w, piece);
        assert w in ws;
      }
    }
  }

  // Character i of the text stands in a passage.
  ghost predicate Held(s: string, pieces: seq<string>, i: nat)
    requires i < |s|
  {
    exists piece, a, b :: piece in pieces && 0 <= a <= i < b <= |s| && piece == s[a..b]
  }

  lemma {:induction false} WindowHeld(s: string, ws: seq<Window>, k: nat, i: nat)
    requires Inside(s, ws) && k < |ws| && ws[k].start <= i < ws[k].end <= |s| && !IsSpace(s[i])
    ensures Held(s, Pieces(s, ws), i)
  {
    if k == 0 {
      var a := TrimLeft(s, ws[0].start, ws[0].end);
      var b := TrimRight(s, a, ws[0].end);
      var piece := Trimmed(s, ws[0].start, ws[0].end);
      TrimLeftIs(s, ws[0].start, ws[0].end);
      TrimRightIs(s, a, ws[0].end);
      assert piece in Pieces(s, ws) && 0 <= a <= i < b <= |s| && piece == s[a..b];
    } else {
      WindowHeld(s, ws[1..], k - 1, i);
      var piece, a, b :| piece in Pieces(s, ws[1..]) && 0 <= a <= i < b <= |s| && piece == s[a..b];
      assert piece in Pieces(s, ws);
    }
  }

  lemma {:induction false} SomeWindow(s: string, size: nat, overlap: nat, ws: seq<Window>, start: nat, n: nat, i: nat)
    returns (k: nat)
    requires Tiles(s, size, overlap, start, ws) && 0 < n <= |ws| && start <= i < ws[n - 1].end
    ensures k < |ws| && ws[k].start <= i < ws[k].end
  {
    if ws[n - 1].start <= i {
      k := n - 1;
    } else {
      assert Follows(s, size, overlap, ws[n - 2], ws[n - 1]);
      k := SomeWindow(s, size, overlap, ws, start, n - 1, i);
    }
  }

  // Nothing but white space is lost, and every passage is a clean piece of one window.
  lemma PassagesKeepText(s: string, size: nat, overlap: nat)
    requires size > 0 && overlap <= size / 2
    ensures forall i: nat | i < |s| && !IsSpace(s[i]) :: Held(s, Passages(s, size, overlap), i)
    ensures forall piece <- Passages(s, size, overlap) ::
              exists w <- Windows(s, size, overlap, 0) :: PassageOf(s, size, w, piece)
  {
    var ws := Windows(s, size, overlap, 0);
    WindowsInside(s, size, overlap, 0);
    if s != [] {
      WindowsTile(s, size, overlap, 0);
      forall i: nat | i < |s| && !IsSpace(s[i]) ensures Held(s, Passages(s, size, overlap), i) {
        var k := SomeWindow(s, size, overlap, ws, 0, |ws|, i);
        WindowHeld(s, ws, k, i);
      }
    }
    forall piece <- Passages(s, size, overlap) ensures exists w <- ws :: PassageOf(s, size, w, piece) {
      PiecesArePassages(s, size, ws, piece);
    }
  }

  lemma PassagesNonEmpty(s: string, size: nat, overlap: nat)
    requires size > 0 && overlap <= size / 2 && s != [] && IsStripped(s)
    ensures Passages(s, size, overlap) != []
  {
    PassagesKeepText(s, size, overlap);
    assert Held(s, Passages(s, size, overlap), 0);
  }
}
