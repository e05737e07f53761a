/**
 * The few pieces of Python's `str` behaviour the agent and the feedback loop
 * rely on: slicing with constant bounds, `strip()`, `split('\n')`,
 * `'\n'.join(...)`, the `in` operator on strings, `replace(pat, '')`, and
 * the decimal rendering and parsing of integers.
 */
module Text {

  import opened Wrappers

  /** Python's `s[:n]` for a non-negative `n`. */
  function Prefix<T>(s: seq<T>, n: nat): (r: seq<T>)
    ensures |r| == if n < |s| then n else |s|
    ensures r == s[..|r|]
  {
    if n < |s| then s[..n] else s
  }

  /** Python's `s[-n:]`: the last `n` characters (all of `s` when shorter).
      Python reads `s[-0:]` as `s[0:]`, so `n == 0` keeps the whole string. */
  function LastChars(s: string, n: nat): (r: string)
    ensures |r| <= |s|
    ensures n > 0 ==> |r| == if n < |s| then n else |s|
    ensures r == s[|s| - |r|..]
  {
    if n == 0 || |s| <= n then s else s[|s| - n..]
  }

  /** The characters Python's `str.isspace()` accepts. */
  predicate IsSpace(c: char) {
    || c == ' ' || c == '\t' || c == '\n' || c == '\r' || c == '\U{0b}' || c == '\U{0c}'
    || ('\U{1c}' <= c <= '\U{1f}') || c == '\U{85}' || c == '\U{a0}' || c == '\U{1680}'
    || ('\U{2000}' <= c <= '\U{200a}') || c == '\U{2028}' || c == '\U{2029}'
    || c == '\U{202f}' || c == '\U{205f}' || c == '\U{3000}'
  }

  predicate AllSpace(s: string) {
    forall k :: 0 <= k < |s| ==> IsSpace(s[k])
  }

  /** The first position at or after `i` that is not whitespace. */
  function SkipSpaces(s: string, i: nat): (k: nat)
    requires i <= |s|
    ensures i <= k <= |s|
    ensures AllSpace(s[i..k])
    ensures k < |s| ==> !IsSpace(s[k])
    decreases |s| - i
  {
    if i < |s| && IsSpace(s[i]) then SkipSpaces(s, i + 1) else i
  }

  /** The end of `s[lo..j]` once trailing whitespace is dropped. */
  function SkipSpacesBack(s: string, lo: nat, j: nat): (k: nat)
    requires lo <= j <= |s|
    ensures lo <= k <= j
    ensures AllSpace(s[k..j])
    ensures k > lo ==> !IsSpace(s[k - 1])
    decreases j
  {
    if lo < j && IsSpace(s[j - 1]) then
      var k := SkipSpacesBack(s, lo, j - 1);
      assert s[k..j] == s[k..j - 1] + [s[j - 1]];
      k
    else j
  }

  /** Python's `s.strip()`: `s` without its leading and trailing whitespace. */
  function Strip(s: string): (r: string)
    ensures exists i, j :: 0 <= i <= j <= |s| && r == s[i..j] && AllSpace(s[..i]) && AllSpace(s[j..])
    ensures r != [] ==> !IsSpace(r[0]) && !IsSpace(r[|r| - 1])
    ensures r == [] <==> AllSpace(s)
  {
    var i := SkipSpaces(s, 0);
    var j := SkipSpacesBack(s, i, |s|);
    assert AllSpace(s[..i]) by { assert s[..i] == s[0..i]; }
    assert AllSpace(s[j..]) by { assert s[j..] == s[j..|s|]; }
    assert i == j ==> AllSpace(s) by {
      if i == j {
        assert s == s[..i] + s[j..];
      }
    }
    assert AllSpace(s) ==> i == |s| by {
      if i < |s| {
        assert !IsSpace(s[i]);
      }
    }
    assert i < j ==> s[i..j][0] == s[i] && s[i..j][j - i - 1] == s[j - 1];
    s[i..j]
  }

  /** Python's `s.split(sep)` for a one-character separator: always at least
      one piece, no piece holds `sep`, and joining the pieces gives `s` back. */
  function Split(s: string, sep: char): (r: seq<string>)
    ensures |r| >= 1
    ensures forall k :: 0 <= k < |r| ==> sep !in r[k]
    ensures Join(r, [sep]) == s
    decreases |s|
  {
    if s == [] then [""]
    else if s[0] == sep then
      var rest := Split(s[1..], sep);
      assert s == [sep] + s[1..];
      [""] + rest
    else
      var rest := Split(s[1..], sep);
      var r := [[s[0]] + rest[0]] + rest[1..];
      assert r[1..] == rest[1..];
      assert s == [s[0]] + s[1..];
      r
  }

  /** Python's `sep.join(xs)`. */
  function Join(xs: seq<string>, sep: string): string
    decreases |xs|
  {
    if |xs| == 0 then ""
    else if |xs| == 1 then xs[0]
    else xs[0] + sep + Join(xs[1..], sep)
  }

  /** The last piece of `Split`: Python's `s.split(sep)[-1]`. */
  function LastPiece(s: string, sep: char): (r: string)
    ensures sep !in r
    ensures |r| <= |s| && r == s[|s| - |r|..]
    ensures sep !in s ==> r == s
    // the longest such suffix: a shorter one starts right after a separator
    ensures |r| < |s| ==> s[|s| - |r| - 1] == sep
  {
    if s == [] then ""
    else if s[|s| - 1] == sep then ""
    else LastPiece(s[..|s| - 1], sep) + [s[|s| - 1]]
  }

  /** Splitting what `Join` built gives back the pieces, provided there is at
      least one and none of them holds the separator. */
  lemma {:induction false} SplitJoin(xs: seq<string>, sep: char)
    requires |xs| >= 1
    requires forall k :: 0 <= k < |xs| ==> sep !in xs[k]
    ensures Split(Join(xs, [sep]), sep) == xs
    decreases |xs|, |xs[0]|
  {
    if |xs| == 1 {
      SplitNoSeparator(xs[0], sep);
    } else if xs[0] == [] {
      var tail := xs[1..];
      assert Join(xs, [sep]) == [sep] + Join(tail, [sep]);
      SplitJoin(tail, sep);
      SplitAtSeparator(Join(tail, [sep]), sep);
      assert xs == [""] + tail;
    } else {
      var c := xs[0][0];
      var ys := [xs[0][1..]] + xs[1..];
      assert Join(xs, [sep]) == [c] + Join(ys, [sep]) by {
        assert xs[0] == [c] + xs[0][1..];
        assert ys[1..] == xs[1..];
      }
      SplitJoin(ys, sep);
      SplitOther(c, Join(ys, [sep]), sep);
      assert xs == [[c] + ys[0]] + ys[1..] by {
        assert xs[0] == [c] + ys[0];
      }
    }
  }

  /** A leading separator closes an empty first piece. */
  lemma SplitAtSeparator(s: string, sep: char)
    ensures Split([sep] + s, sep) == [""] + Split(s, sep)
  {
    assert ([sep] + s)[1..] == s;
  }

  /** Any other leading character joins the first piece. */
  lemma SplitOther(c: char, s: string, sep: char)
    requires c != sep
    ensures Split([c] + s, sep) == [[c] + Split(s, sep)[0]] + Split(s, sep)[1..]
  {
    assert ([c] + s)[1..] == s;
  }

  lemma {:induction false} SplitNoSeparator(s: string, sep: char)
    requires sep !in s
    ensures Split(s, sep) == [s]
    decreases |s|
  {
    if s != [] {
      SplitNoSeparator(s[1..], sep);
      assert s == [s[0]] + s[1..];
    }
  }

  /** `needle` occurs in `hay` starting at position `i`. */
  predicate OccursAt(hay: string, needle: string, i: nat) {
    i + |needle| <= |hay| && hay[i..i + |needle|] == needle
  }

  /** The least position in `[from, bound)` that satisfies `at`, if any:
      the leftmost-match search `re.search` and `str.find` perform. */
  function FirstFrom(bound: nat, at: nat -> bool, from: nat): (r: Option<nat>)
    requires from <= bound
    ensures r.Some? ==> from <= r.value < bound && at(r.value)
    ensures r.Some? ==> forall k :: from <= k < r.value ==> !at(k)
    ensures r.None? ==> forall k :: from <= k < bound ==> !at(k)
    decreases bound - from
  {
    if from == bound then None
    else if at(from) then Some(from)
    else FirstFrom(bound, at, from + 1)
  }

  /** Python's `needle in hay`. */
  function Contains(hay: string, needle: string): (b: bool)
    ensures b <==> exists i: nat :: OccursAt(hay, needle, i)
  {
    var r := FirstFrom(|hay| + 1, (i: nat) => OccursAt(hay, needle, i), 0);
    assert r.None? ==> forall i: nat :: !OccursAt(hay, needle, i) by {
      if r.None? {
        forall i: nat ensures !OccursAt(hay, needle, i) {
          if i <= |hay| {
            assert ((i: nat) => OccursAt(hay, needle, i))(i) == OccursAt(hay, needle, i);
          }
        }
      }
    }
    r.Some?
  }

  /** Python's `s.replace(pat, '')`: deletes the occurrences of `pat` found
      scanning left to right, without rescanning what the deletion joins. */
  function RemoveAll(s: string, pat: string): (r: string)
    ensures |r| <= |s|
    // something is deleted iff `pat` occurs
    ensures |r| < |s| <==> pat != [] && Contains(s, pat)
    decreases |s|
  {
    if pat == [] || s == [] then s
    else if OccursAt(s, pat, 0) then
      RemoveAll(s[|pat|..], pat)
    else
      var r := [s[0]] + RemoveAll(s[1..], pat);
      ShiftOccurrences(s, pat);
      r
  }

  /** `pat` occurs in `s` past its first character iff it occurs in `s[1..]`. */
  lemma ShiftOccurrences(s: string, pat: string)
    requires s != []
    ensures forall i: nat :: OccursAt(s[1..], pat, i) <==> OccursAt(s, pat, i + 1)
    ensures Contains(s, pat) <==> OccursAt(s, pat, 0) || Contains(s[1..], pat)
  {
    forall i: nat ensures OccursAt(s[1..], pat, i) <==> OccursAt(s, pat, i + 1) {
      if i + |pat| <= |s| - 1 {
        assert s[1..][i..i + |pat|] == s[i + 1..i + 1 + |pat|];
      }
    }
    if Contains(s, pat) && !OccursAt(s, pat, 0) {
      var i: nat :| OccursAt(s, pat, i);
      assert OccursAt(s[1..], pat, i - 1);
    }
  }

  /** Deleting never introduces a character. */
  lemma {:induction false} RemoveAllChars(s: string, pat: string)
    ensures forall c :: c in RemoveAll(s, pat) ==> c in s
    decreases |s|
  {
    if pat != [] && s != [] {
      if OccursAt(s, pat, 0) {
        RemoveAllChars(s[|pat|..], pat);
      } else {
        RemoveAllChars(s[1..], pat);
      }
    }
  }

  /** Without an occurrence there is nothing to delete. */
  lemma {:induction false} RemoveAllAbsent(s: string, pat: string)
    requires !Contains(s, pat)
    ensures RemoveAll(s, pat) == s
    decreases |s|
  {
    if pat != [] && s != [] {
      assert !OccursAt(s, pat, 0);
      assert !Contains(s[1..], pat) by {
        forall i: nat ensures !OccursAt(s[1..], pat, i) {
          assert !OccursAt(s, pat, i + 1);
          if i + |pat| <= |s| - 1 {
            assert s[1..][i..i + |pat|] == s[i + 1..i + 1 + |pat|];
          }
        }
      }
      RemoveAllAbsent(s[1..], pat);
      assert s == [s[0]] + s[1..];
    }
  }

  /** A character that cannot start `pat` is kept, and the scan moves on. */
  lemma RemoveAllKeeps(c: char, s: string, pat: string)
    requires pat != [] && c != pat[0]
    ensures RemoveAll([c] + s, pat) == [c] + RemoveAll(s, pat)
  {
    assert !OccursAt([c] + s, pat, 0);
    assert ([c] + s)[1..] == s;
  }

  /** Without an occurrence at the scan position, the first character is
      kept and the scan moves on by one. */
  lemma RemoveAllSkips(s: string, pat: string)
    requires pat != [] && s != [] && !OccursAt(s, pat, 0)
    ensures RemoveAll(s, pat) == [s[0]] + RemoveAll(s[1..], pat)
  {
  }

  /** An occurrence at the scan position is deleted whole. */
  lemma RemoveAllDrops(pat: string, s: string)
    requires pat != []
    ensures RemoveAll(pat + s, pat) == RemoveAll(s, pat)
  {
    assert OccursAt(pat + s, pat, 0);
    assert (pat + s)[|pat|..] == s;
  }

  /** A stretch in which `pat` cannot start is kept whole. */
  lemma {:induction false} RemoveAllKeepsAll(a: string, s: string, pat: string)
    requires pat != [] && pat[0] !in a
    ensures RemoveAll(a + s, pat) == a + RemoveAll(s, pat)
    decreases |a|
  {
    if a != [] {
      RemoveAllKeepsAll(a[1..], s, pat);
      KeepsOneMore(a, s, pat);
    } else {
      assert a + s == s && a + RemoveAll(s, pat) == RemoveAll(s, pat);
    }
  }

  /** The step of `RemoveAllKeepsAll`: one more kept character in front. */
  lemma KeepsOneMore(a: string, s: string, pat: string)
    requires pat != [] && a != [] && a[0] != pat[0]
    requires RemoveAll(a[1..] + s, pat) == a[1..] + RemoveAll(s, pat)
    ensures RemoveAll(a + s, pat) == a + RemoveAll(s, pat)
  {
    ConsConcat(a, s);
    RemoveAllKeeps(a[0], a[1..] + s, pat);
    ConsConcat(a, RemoveAll(s, pat));
  }

  /** Splitting off the first character of the left operand of `+`. */
  lemma ConsConcat<T>(a: seq<T>, b: seq<T>)
    requires a != []
    ensures a + b == [a[0]] + (a[1..] + b)
  {
    assert a == [a[0]] + a[1..];
  }

  /** Positions where `pat` cannot occur are kept as they are, and the scan
      goes on after them. */
  lemma {:induction false} RemoveAllSkipsPrefix(s: string, pat: string, n: nat)
    requires pat != [] && n <= |s|
    requires forall i :: 0 <= i < n ==> !OccursAt(s, pat, i)
    ensures RemoveAll(s, pat) == s[..n] + RemoveAll(s[n..], pat)
    decreases n
  {
    if n == 0 {
      assert s[..0] == [] && s[0..] == s;
    } else {
      assert !OccursAt(s, pat, 0);
      RemoveAllSkips(s, pat);
      ShiftOccurrences(s, pat);
      RemoveAllSkipsPrefix(s[1..], pat, n - 1);
      assert s[1..][n - 1..] == s[n..];
      ConsConcat(s[..n], RemoveAll(s[n..], pat));
      assert s[..n][1..] == s[1..][..n - 1];
    }
  }

  /** The deletion does not rescan: when an occurrence of `pat` splits
      another copy `x + y` of it, the occurrence is deleted and the copy
      the deletion joins together is kept. */
  lemma RemovalDoesNotRescan(x: string, y: string, pat: string)
    requires pat == x + y && x != [] && y != []
    requires forall i :: 0 <= i < |x| ==> !OccursAt(x + pat + y, pat, i)
    ensures RemoveAll(x + pat + y, pat) == pat
  {
    var s := x + pat + y;
    RemoveAllSkipsPrefix(s, pat, |x|);
    assert s == x + (pat + y);
    SplitAt(x, pat + y);
    RemoveAllDrops(pat, y);
    assert !Contains(y, pat);
    RemoveAllAbsent(y, pat);
  }

  /** The two operands of `+` are its slices at the first one's length. */
  lemma SplitAt<T>(a: seq<T>, b: seq<T>)
    ensures (a + b)[..|a|] == a && (a + b)[|a|..] == b
  {
  }

  predicate IsDigit(c: char) {
    '0' <= c <= '9'
  }

  predicate AllDigits(s: string) {
    forall k :: 0 <= k < |s| ==> IsDigit(s[k])
  }

  /** Python's `int(ds)` for a string of ASCII digits. */
  function DecimalValue(ds: string): nat
    requires AllDigits(ds)
    decreases |ds|
  {
    if ds == [] then 0
    else 10 * DecimalValue(ds[..|ds| - 1]) + (ds[|ds| - 1] - '0') as nat
  }

  /** Python's `str(n)` for a natural number. */
  function ShowNat(n: nat): (r: string)
    ensures r != [] && AllDigits(r)
    ensures r[0] == '0' ==> n == 0
    decreases n
  {
    if n < 10 then [('0' as int + n) as char]
    else ShowNat(n / 10) + [('0' as int + n % 10) as char]
  }

  /** Python's `str(i)` for an integer. */
  function ShowInt(i: int): (r: string)
    ensures r != []
    ensures i < 0 <==> r[0] == '-'
  {
    if i < 0 then "-" + ShowNat(-i) else ShowNat(i)
  }

  /** Parsing the decimal rendering of `n` gives `n` back. */
  lemma {:induction false} ShowNatRoundTrip(n: nat)
    ensures DecimalValue(ShowNat(n)) == n
    decreases n
  {
    if n >= 10 {
      var s := ShowNat(n);
      assert s[..|s| - 1] == ShowNat(n / 10);
      ShowNatRoundTrip(n / 10);
    }
  }
}
