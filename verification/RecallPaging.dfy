/** Peeking at the compacted-history archive by byte offset (crates/rustykrab-agent/src/recall_tools.rs). */
module RecallPaging {
  import opened Common
  import opened Utf8

  const MAX_PEEK: nat := 50_000

  /** The first boundary at or after `offset`, within the text. */
  function Snap(s: Bytes, offset: nat): (pos: nat)
    ensures Min(offset, |s|) <= pos <= |s| && IsBoundary(s, pos)
    ensures forall j :: Min(offset, |s|) <= j < pos ==> !IsBoundary(s, j)
    decreases |s| - Min(offset, |s|)
  {
    var pos := Min(offset, |s|);
    if pos < |s| && !IsBoundary(s, pos) then Snap(s, pos + 1) else pos
  }

  method SnapToBoundary(s: Bytes, offset: nat) returns (pos: nat)
    ensures pos == Snap(s, offset)
  {
    pos := Min(offset, |s|);
    while pos < |s| && !IsBoundary(s, pos)
      invariant pos <= |s|
      invariant Snap(s, offset) == Snap(s, pos)
    {
      pos := pos + 1;
    }
  }

  datatype Peek = Peek(text: Bytes, start: nat, end: nat, truncated: bool)

  function PeekAt(archive: Bytes, start: nat, end: nat): (p: Peek)
    ensures p.start <= p.end <= |archive| && p.text == archive[p.start..p.end]
    ensures IsBoundary(archive, p.start) && IsBoundary(archive, p.end)
  {
    var from := Snap(archive, Min(start, |archive|));
    var to := Snap(archive, Max(Min(end, |archive|), from));
    var effective := Snap(archive, Min(to, from + MAX_PEEK));
    Peek(archive[from..effective], from, effective, effective < to)
  }

  // ── one peek ──────────────────────────────────────────────────────────

  /** The boundaries of a text are its start and those of what follows its first character. */
  lemma FirstCharacter(s: Bytes, i: nat)
    requires IsUtf8(s) && s != [] && i <= |s|
    ensures var n := Width(s[0]);
      && (0 < i < n ==> !IsBoundary(s, i))
      && (n <= i ==> (IsBoundary(s, i) <==> IsBoundary(s[n..], i - n)))
  {
    var n := Width(s[0]);
    assert s[..n][0] == s[0];
    if 0 < i < n {
      assert s[..n][i] == s[i];
    } else if n <= i < |s| {
      assert s[n..][i - n] == s[i];
    }
  }

  /** Text between two boundaries is text. */
  lemma {:induction false} PrefixIsText(s: Bytes, b: nat)
    requires IsUtf8(s) && b <= |s| && IsBoundary(s, b)
    ensures IsUtf8(s[..b])
    decreases |s|
  {
    if b > 0 {
      var n := Width(s[0]);
      FirstCharacter(s, b);
      PrefixIsText(s[n..], b - n);
      assert s[..b][..n] == s[..n];
      assert s[..b][n..] == s[n..][..b - n];
    }
  }

  lemma {:induction false} SuffixIsText(s: Bytes, a: nat)
    requires IsUtf8(s) && a <= |s| && IsBoundary(s, a)
    ensures IsUtf8(s[a..])
    decreases |s|
  {
    if a == 0 {
      assert s[a..] == s;
    } else {
      var n := Width(s[0]);
      FirstCharacter(s, a);
      SuffixIsText(s[n..], a - n);
      assert s[a..] == s[n..][a - n..];
    }
  }

  lemma {:induction false} SliceIsText(s: Bytes, a: nat, b: nat)
    requires IsUtf8(s) && a <= b <= |s| && IsBoundary(s, a) && IsBoundary(s, b)
    ensures IsUtf8(s[a..b])
  {
    hide IsUtf8;
    SuffixIsText(s, a);
    assert a < b < |s| ==> s[a..][b - a] == s[b];
    PrefixIsText(s[a..], b - a);
    assert s[a..b] == s[a..][..b - a];
  }

  lemma SnapIsNear(s: Bytes, offset: nat)
    requires IsUtf8(s) && offset <= |s|
    ensures Snap(s, offset) <= offset + 3
  {
    BoundaryNear(s, offset);
  }

  /**
    A peek slices on character boundaries, returns text, and is at most three
    bytes over its cap: it is over exactly when the request reaches past the
    cap and the cap falls inside a character.
   */
  lemma PeekIsBounded(archive: Bytes, start: nat, end: nat)
    requires IsUtf8(archive)
    ensures var p := PeekAt(archive, start, end);
      && IsUtf8(p.text)
      && |p.text| <= 50_003
      && (|p.text| > 50_000 <==>
            Snap(archive, Max(Min(end, |archive|), p.start)) > p.start + 50_000
            && !IsBoundary(archive, p.start + 50_000))
  {
    var p := PeekAt(archive, start, end);
    SliceIsText(archive, p.start, p.end);
    var to := Snap(archive, Max(Min(end, |archive|), p.start));
    SnapIsNear(archive, Min(to, p.start + MAX_PEEK));
  }

  /**
    What the reader may conclude: a peek says it was cut short exactly when
    it ends before the end asked for, or before the archive's if that is less;
    otherwise the text up to there is all in it.
   */
  lemma TruncatedExactly(archive: Bytes, start: nat, end: nat)
    ensures var p := PeekAt(archive, start, end);
      && (p.truncated <==> p.end < Min(end, |archive|))
      && (!p.truncated && start <= end ==> forall i :: p.start <= i < Min(end, |archive|) ==>
            i - p.start < |p.text| && p.text[i - p.start] == archive[i])
  {
  }

  // ── reading on from where the last peek ended ─────────────────────────

  /** Peek after peek, each starting where the last one ended, to ends of the reader's choosing. */
  function ReadOn(archive: Bytes, from: nat, ends: seq<nat>): (seq<Bytes>, nat)
    decreases |ends|
  {
    if ends == [] then ([], from)
    else
      var p := PeekAt(archive, from, ends[0]);
      var (pages, last) := ReadOn(archive, p.end, ends[1..]);
      ([p.text] + pages, last)
  }

  function Joined(pages: seq<Bytes>): Bytes {
    if pages == [] then [] else pages[0] + Joined(pages[1..])
  }

  lemma JoinedFirst(page: Bytes, pages: seq<Bytes>)
    ensures Joined([page] + pages) == page + Joined(pages)
  {
    assert ([page] + pages)[1..] == pages;
  }

  lemma SlicesMeet(s: Bytes, a: nat, b: nat, c: nat)
    requires a <= b <= c <= |s|
    ensures s[a..b] + s[b..c] == s[a..c]
  {
  }

  /** Whatever ends are asked for, the pages tile the archive: no gap, no overlap. */
  lemma {:induction false} PagesTile(archive: Bytes, from: nat, ends: seq<nat>)
    requires from <= |archive| && IsBoundary(archive, from)
    ensures var (pages, last) := ReadOn(archive, from, ends);
      && from <= last <= |archive| && IsBoundary(archive, last)
      && Joined(pages) == archive[from..last]
    decreases |ends|
  {
    if ends != [] {
      var p := PeekAt(archive, from, ends[0]);
      assert p.start == from;
      PagesTile(archive, p.end, ends[1..]);
      var (pages, last) := ReadOn(archive, p.end, ends[1..]);
      JoinedFirst(p.text, pages);
      SlicesMeet(archive, from, p.end, last);
    }
  }

  /** Asking for anything ahead makes progress until the archive is exhausted. */
  lemma PeekMovesOn(archive: Bytes, from: nat, end: nat)
    requires from < |archive| && IsBoundary(archive, from) && end > from
    ensures PeekAt(archive, from, end).start == from < PeekAt(archive, from, end).end
  {
  }

  function ReadAll(archive: Bytes, from: nat): seq<Bytes>
    requires from <= |archive| && IsBoundary(archive, from)
    decreases |archive| - from
  {
    if from == |archive| then []
    else
      PeekMovesOn(archive, from, |archive|);
      var p := PeekAt(archive, from, |archive|);
      [p.text] + ReadAll(archive, p.end)
  }

  /** A reader that keeps asking for the rest sees the whole archive. */
  lemma {:induction false} ReadAllIsEverything(archive: Bytes, from: nat)
    requires from <= |archive| && IsBoundary(archive, from)
    ensures Joined(ReadAll(archive, from)) == archive[from..]
    decreases |archive| - from
  {
    if from < |archive| {
      PeekMovesOn(archive, from, |archive|);
      var p := PeekAt(archive, from, |archive|);
      ReadAllIsEverything(archive, p.end);
      JoinedFirst(p.text, ReadAll(archive, p.end));
      SlicesMeet(archive, from, p.end, |archive|);
    }
  }

  /** In pages that are text, not empty, and within the bound. */
  lemma {:induction false} ReadAllInPages(archive: Bytes, from: nat)
    requires IsUtf8(archive) && from <= |archive| && IsBoundary(archive, from)
    ensures forall i :: 0 <= i < |ReadAll(archive, from)| ==>
      IsUtf8(ReadAll(archive, from)[i]) && 0 < |ReadAll(archive, from)[i]| <= 50_003
    decreases |archive| - from
  {
    if from < |archive| {
      var p := PeekAt(archive, from, |archive|);
      PeekMovesOn(archive, from, |archive|);
      PeekIsBounded(archive, from, |archive|);
      hide IsUtf8;
      ReadAllInPages(archive, p.end);
    }
  }

  // ── the cap in the tool's description is not exact ────────────────────

  lemma {:induction false} PlainThenText(n: nat, tail: Bytes)
    requires IsUtf8(tail)
    ensures IsUtf8(seq(n, _ => 65) + tail)
  {
    if n == 0 {
      assert seq(0, _ => 65) + tail == tail;
    } else {
      PlainThenText(n - 1, tail);
      var s: Bytes := seq(n, _ => 65) + tail;
      assert s[..1] == [65];
      assert s[1..] == seq(n - 1, _ => 65) + tail;
    }
  }

  /** A peek of 50,003 bytes: one crab straddling the cap. */
  lemma PeekOverItsCap()
    ensures exists archive: Bytes :: IsUtf8(archive) && |PeekAt(archive, 0, |archive|).text| == MAX_PEEK + 3
  {
    var crab: Bytes := [0xF0, 0x9F, 0xA6, 0x80];
    assert crab[..4] == crab && crab[4..] == [];
    var archive: Bytes := seq(MAX_PEEK - 1, _ => 65) + crab;
    PlainThenText(MAX_PEEK - 1, crab);
    assert archive[MAX_PEEK] == 0x9F && archive[MAX_PEEK + 1] == 0xA6 && archive[MAX_PEEK + 2] == 0x80;
    assert |archive| == MAX_PEEK + 3;
    assert Snap(archive, MAX_PEEK) == MAX_PEEK + 3;
    assert Snap(archive, 0) == 0;
  }
}
