/**
 The shortest stretch of a string that covers another one, by two moving ends.
*/
module MinWindow {

  const CHARS: nat := 128

  /** The table of missing characters has an entry for each of these. */
  predicate Ascii(s: string) { forall i :: 0 <= i < |s| ==> s[i] as int < CHARS }

  /** The stretch from i up to j holds every character of t as often as t does. */
  predicate Covers(s: string, i: int, j: int, t: string)
    requires 0 <= i <= j <= |s|
  {
    multiset(t) <= multiset(s[i..j])
  }

  /** The tables after counting t and a window. */
  ghost predicate Counts(need: seq<int>, flag: seq<bool>, t: string, w: multiset<char>) {
    && |need| == |flag| == CHARS
    && (forall c: char :: c as int < CHARS ==> flag[c as int] == (c in t))
    && (forall c: char :: c as int < CHARS && c in t ==> need[c as int] + w[c] == multiset(t)[c])
  }

  /** How many characters of t the window has, each as often as t wants it at most. */
  ghost function Matched(t: string, w: multiset<char>): nat { |multiset(t) * w| }

  /** All is matched exactly when the window covers. */
  lemma MatchedAll(t: string, w: multiset<char>)
    ensures Matched(t, w) <= |t|
    ensures Matched(t, w) == |t| <==> multiset(t) <= w
  {
    var m := multiset(t);
    assert |m| == |t|;
    var rest := m - m * w;
    assert m == m * w + rest;
    if |m * w| == |m| {
      assert rest == multiset{};
      assert m * w == m;
    }
    if m <= w { assert m * w == m; }
  }

  /** One more character counts when it is still missing. */
  lemma Wider(t: string, w: multiset<char>, c: char)
    ensures Matched(t, w + multiset{c}) == Matched(t, w) + if w[c] < multiset(t)[c] then 1 else 0
  {
    var m := multiset(t);
    assert m * (w + multiset{c}) == if w[c] < m[c] then m * w + multiset{c} else m * w;
  }

  lemma Drop(s: string, l: int, r: int)
    requires 0 <= l < r <= |s|
    ensures multiset(s[l..r]) == multiset(s[l + 1..r]) + multiset{s[l]}
  {
    assert s[l..r] == [s[l]] + s[l + 1..r];
  }

  lemma Extend(s: string, l: int, r: int)
    requires 0 <= l <= r < |s|
    ensures multiset(s[l..r + 1]) == multiset(s[l..r]) + multiset{s[r]}
  {
    assert s[l..r + 1] == s[l..r] + [s[r]];
  }

  /** A stretch inside covers no more. */
  lemma Inside(s: string, a: int, b: int, i: int, j: int, t: string)
    requires 0 <= a <= i <= j <= b <= |s| && Covers(s, i, j, t)
    ensures Covers(s, a, b, t)
  {
    assert s[a..b] == s[a..i] + s[i..j] + s[j..b];
  }

  /**
   The best so far: no covering stretch that ends at r or before is shorter, or as long and
   further left, than the one of length size that starts at start; size |s| + 1 means none.
  */
  ghost predicate Best(s: string, t: string, r: int, start: int, size: int) {
    && 0 <= r <= |s| && 0 <= start && 0 <= size
    && (size <= |s| ==> start + size <= r && Covers(s, start, start + size, t))
    && forall i, j :: 0 <= i <= j <= r && Covers(s, i, j, t) ==> size < j - i || (size == j - i && start <= i)
  }

  /** The same while the stretches that end at r + 1 are looked at: those that start before l are done. */
  ghost predicate Bettering(s: string, t: string, r: int, l: int, start: int, size: int) {
    && 0 <= l <= r + 1 <= |s| && 0 <= start <= l && 0 <= size
    && (size <= |s| ==> start + size <= r + 1 && Covers(s, start, start + size, t))
    && (forall i, j :: 0 <= i <= j <= r && Covers(s, i, j, t) ==> size < j - i || (size == j - i && start <= i))
    && (l > 0 ==> start < l && size <= r + 2 - l)
  }

  lemma BeginRound(s: string, t: string, r: int, l: int, start: int, size: int)
    requires Best(s, t, r, start, size) && 0 <= start <= l <= r < |s|
    requires l > 0 ==> start < l && size <= r + 1 - l
    ensures Bettering(s, t, r, l, start, size)
  {
  }

  /** A covering stretch from l to r + 1 is taken if it is shorter. */
  lemma TakeShorter(s: string, t: string, r: int, l: int, start: int, size: int)
    requires Bettering(s, t, r, l, start, size) && l <= r && Covers(s, l, r + 1, t)
    ensures if r + 1 - l < size then Bettering(s, t, r, l + 1, l, r + 1 - l) else Bettering(s, t, r, l + 1, start, size)
  {
  }

  lemma EndRound(s: string, t: string, r: int, l: int, start: int, size: int)
    requires Bettering(s, t, r, l, start, size) && !Covers(s, l, r + 1, t)
    ensures Best(s, t, r + 1, start, size)
    ensures start <= l && (l > 0 ==> start < l && size <= r + 2 - l)
  {
    forall i, j | 0 <= i <= j <= r + 1 && Covers(s, i, j, t) ensures size < j - i || (size == j - i && start <= i) {
      if j == r + 1 && i >= l { Inside(s, l, r + 1, i, j, t); }
    }
  }

  /** The window [l..r] in the tables. */
  ghost predicate Window(s: string, t: string, need: seq<int>, flag: seq<bool>, l: int, r: int, cnt: int) {
    && 0 <= l <= r <= |s| && Counts(need, flag, t, multiset(s[l..r])) && cnt == Matched(t, multiset(s[l..r]))
  }

  /** Counting the characters of t. */
  method Tally(t: string) returns (need: array<int>, flag: array<bool>)
    requires Ascii(t)
    ensures fresh(need) && fresh(flag) && Counts(need[..], flag[..], t, multiset{})
  {
    need, flag := new int[CHARS](_ => 0), new bool[CHARS](_ => false);
    for k := 0 to |t|
      invariant need.Length == flag.Length == CHARS
      invariant forall i :: 0 <= i < CHARS ==> flag[i] == (i as char in t[..k])
      invariant forall i :: 0 <= i < CHARS ==> need[i] == multiset(t[..k])[i as char]
    {
      assert t[..k + 1] == t[..k] + [t[k]];
      var c := t[k] as int;
      need[c] := need[c] + 1;
      flag[c] := true;
    }
    assert t[..|t|] == t;
  }

  /** The window takes in s[r]. */
  method TakeIn(s: string, ghost t: string, need: array<int>, flag: array<bool>, ghost l: int, r: int, cnt0: int)
    returns (cnt: int)
    requires need.Length == flag.Length == CHARS && Ascii(s) && Ascii(t) && r < |s|
    requires Window(s, t, need[..], flag[..], l, r, cnt0)
    requires flag[s[r] as int]
    modifies need
    ensures Window(s, t, need[..], flag[..], l, r + 1, cnt)
  {
    cnt := cnt0;
    var c := s[r] as int;
    need[c] := need[c] - 1;
    if need[c] >= 0 {
      cnt := cnt + 1;
    }
    Extend(s, l, r);
    Wider(t, multiset(s[l..r]), s[r]);
  }

  /** The window gives up s[l]. */
  method GiveUp(s: string, ghost t: string, need: array<int>, flag: array<bool>, l: int, ghost r: int, cnt0: int)
    returns (cnt: int)
    requires need.Length == flag.Length == CHARS && Ascii(s) && Ascii(t) && l < r
    requires Window(s, t, need[..], flag[..], l, r, cnt0)
    modifies need
    ensures Window(s, t, need[..], flag[..], l + 1, r, cnt)
  {
    cnt := cnt0;
    Drop(s, l, r);
    Wider(t, multiset(s[l + 1..r]), s[l]);
    if flag[s[l] as int] {
      var c := s[l] as int;
      need[c] := need[c] + 1;
      if need[c] > 0 {
        cnt := cnt - 1;
      }
    }
  }

  lemma PassOver(s: string, t: string, need: seq<int>, flag: seq<bool>, l: int, r: int, cnt: int)
    requires Ascii(s) && r < |s| && Window(s, t, need, flag, l, r, cnt) && !flag[s[r] as int]
    ensures Window(s, t, need, flag, l, r + 1, cnt)
  {
    Extend(s, l, r);
    Wider(t, multiset(s[l..r]), s[r]);
  }

  ghost predicate Coverable(s: string, t: string) { exists i, j :: 0 <= i <= j <= |s| && Covers(s, i, j, t) }

  /** The stretch at a is as short as covering stretches get, and the first that short. */
  ghost predicate FirstShortest(s: string, t: string, a: int, res: string) {
    && 0 <= a <= |s| - |res| && res == s[a..a + |res|] && Covers(s, a, a + |res|, t)
    && forall i, j :: 0 <= i <= j <= |s| && Covers(s, i, j, t) ==> |res| < j - i || (|res| == j - i && a <= i)
  }

  /** While the window covers, it is noted if it is the shortest, and gives up a character. */
  method Shrink(s: string, t: string, need: array<int>, flag: array<bool>, l0: int, r: int, cnt0: int, minL0: int,
                minsize0: int)
    returns (l: int, cnt: int, minL: int, minsize: int)
    requires need.Length == flag.Length == CHARS && Ascii(s) && Ascii(t) && t != ""
    requires Window(s, t, need[..], flag[..], l0, r + 1, cnt0) && Bettering(s, t, r, l0, minL0, minsize0)
    modifies need
    ensures Window(s, t, need[..], flag[..], l, r + 1, cnt) && Bettering(s, t, r, l, minL, minsize) && cnt < |t|
  {
    hide Matched, Counts, Window, Bettering;
    l, cnt, minL, minsize := l0, cnt0, minL0, minsize0;
    Shows(s, t, need[..], flag[..], l, r + 1, cnt);
    while cnt == |t|
      invariant 0 <= l <= r + 1 <= |s| && Window(s, t, need[..], flag[..], l, r + 1, cnt)
      invariant cnt <= |t| && (cnt == |t| ==> l <= r && Covers(s, l, r + 1, t))
      invariant Bettering(s, t, r, l, minL, minsize)
      decreases r + 1 - l
    {
      TakeShorter(s, t, r, l, minL, minsize);
      if r - l + 1 < minsize {
        minL := l;
        minsize := r - l + 1;
      }
      cnt := GiveUp(s, t, need, flag, l, r + 1, cnt);
      l := l + 1;
      Shows(s, t, need[..], flag[..], l, r + 1, cnt);
    }
  }

  /** The count tells whether the window covers. */
  lemma Shows(s: string, t: string, need: seq<int>, flag: seq<bool>, l: int, r: int, cnt: int)
    requires Window(s, t, need, flag, l, r, cnt)
    ensures 0 <= l <= r <= |s| && cnt <= |t| && (cnt == |t| <==> Covers(s, l, r, t))
    ensures cnt == |t| && t != "" ==> l < r
  {
    MatchedAll(t, multiset(s[l..r]));
    if l == r && t != "" { assert t[0] in multiset(t); }
  }

  lemma NothingMatched(s: string, t: string, need: seq<int>, flag: seq<bool>)
    requires Counts(need, flag, t, multiset{})
    ensures Window(s, t, need, flag, 0, 0, 0)
  {
    assert multiset(s[0..0]) == multiset{} && multiset(t) * multiset{} == multiset{};
  }

  /** What the search has found when it reaches the end. */
  lemma Found(s: string, t: string, start: int, size: int)
    requires Best(s, t, |s|, start, size)
    ensures size <= |s| ==> FirstShortest(s, t, start, s[start..start + size])
    ensures Coverable(s, t) <==> size <= |s|
  {
  }

  lemma ShortestOf(s: string, t: string, start: int, size: int)
    requires Best(s, t, |s|, start, size) && t != ""
    ensures var res := if size > |s| then "" else s[start..start + size];
            && (res != "" ==> multiset(t) <= multiset(res))
            && forall i, j :: 0 <= i <= j <= |s| && multiset(t) <= multiset(s[i..j]) ==> res != "" && |res| <= j - i
  {
    assert t[0] in multiset(t);
    forall i, j | 0 <= i <= j <= |s| && multiset(t) <= multiset(s[i..j]) ensures size <= |s| && size <= j - i {
      assert Covers(s, i, j, t);
    }
  }

  /**
   The shortest stretch of s that covers t, the first of them if there are several; nothing if
   there is none or t is empty.
  */
  method Shortest(s: string, t: string) returns (res: string)
    requires Ascii(s) && Ascii(t) && |s| < 0x7fff_ffff && |t| < 0x7fff_ffff
    ensures t != "" && Coverable(s, t) ==> exists a :: FirstShortest(s, t, a, res)
    ensures t == "" || !Coverable(s, t) ==> res == ""
    ensures res != "" ==> multiset(t) <= multiset(res)
    ensures t != "" ==> forall i, j :: 0 <= i <= j <= |s| && multiset(t) <= multiset(s[i..j]) ==>
              res != "" && |res| <= j - i
  {
    hide Matched, Counts, Covers, Bettering, Coverable, FirstShortest;
    var need, flag := Tally(t);
    NothingMatched(s, t, need[..], flag[..]);
    var l, r, cnt, minsize, minL := 0, 0, 0, |s| + 1, 0;
    if t != "" { NothingCovers(s, t); }
    while r < |s|
      invariant 0 <= minL <= l <= r <= |s|
      invariant Window(s, t, need[..], flag[..], l, r, cnt)
      invariant l > 0 ==> minL < l && minsize <= r + 1 - l
      invariant if t == "" then minsize == |s| + 1 else cnt < |t| && Best(s, t, r, minL, minsize)
      decreases |s| - r
    {
      InTally(s, t, need[..], flag[..], l, r, cnt);
      if t != "" { BeginRound(s, t, r, l, minL, minsize); }
      if flag[s[r] as int] {
        cnt := TakeIn(s, t, need, flag, l, r, cnt);
        l, cnt, minL, minsize := Shrink(s, t, need, flag, l, r, cnt, minL, minsize);
      } else {
        PassOver(s, t, need[..], flag[..], l, r, cnt);
      }
      if t != "" {
        Shows(s, t, need[..], flag[..], l, r + 1, cnt);
        EndRound(s, t, r, l, minL, minsize);
      }
      r := r + 1;
    }
    if t != "" {
      Found(s, t, minL, minsize);
      ShortestOf(s, t, minL, minsize);
    }
    return if minsize > |s| then "" else s[minL..minL + minsize];
  }

  lemma NothingCovers(s: string, t: string)
    requires t != ""
    ensures Best(s, t, 0, 0, |s| + 1)
  {
    assert t[0] in multiset(t);
  }

  lemma InTally(s: string, t: string, need: seq<int>, flag: seq<bool>, l: int, r: int, cnt: int)
    requires Window(s, t, need, flag, l, r, cnt) && Ascii(s) && r < |s|
    ensures |flag| == CHARS && s[r] as int < CHARS && flag[s[r] as int] == (s[r] in t)
  {
  }
}
