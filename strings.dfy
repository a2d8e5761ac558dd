/**
  String operations the locker controller relies on, with their laws:
  prefix tests, PHP's `str_replace` for one search string, `explode(',', ...)`
  and fixed-width decimal rendering (the digits of `date(...)`).
 */
module Strings {

  /** True iff `s` begins with `p` (PHP `substr($s, 0, |p|) === $p`). */
  predicate StartsWith(s: string, p: string)
  {
    |p| <= |s| && s[..|p|] == p
  }

  /** `q` occurs in `s` starting at index `i`. */
  predicate OccursAt(s: string, q: string, i: nat)
  {
    i + |q| <= |s| && s[i..i + |q|] == q
  }

  /** `q` occurs somewhere in `s`. */
  predicate Contains(s: string, q: string)
  {
    exists i: nat | i <= |s| :: OccursAt(s, q, i)
  }

  /** A string that starts with a dot and has no other dot, such as ".mp4". */
  predicate DotLed(s: string)
  {
    |s| > 0 && s[0] == '.' && '.' !in s[1..]
  }

  /**
    PHP `str_replace($q, $r, $s)` for one non-empty search string: scans left
    to right and replaces every non-overlapping occurrence of `q` by `r`.
   */
  function ReplaceAll(s: string, q: string, r: string): string
    requires |q| > 0
    decreases |s|
  {
    if |s| < |q| then s
    else if s[..|q|] == q then r + ReplaceAll(s[|q|..], q, r)
    else [s[0]] + ReplaceAll(s[1..], q, r)
  }

  /** An occurrence in a tail is an occurrence in the whole string, shifted. */
  lemma OccursInTail(s: string, q: string, k: nat, i: nat)
    requires k <= |s| && OccursAt(s[k..], q, i)
    ensures OccursAt(s, q, i + k)
  {
    assert s[k..][i..i + |q|] == s[i + k..i + k + |q|];
  }

  /** A string without `q` is left unchanged by replacing `q`. */
  lemma {:induction false} ReplaceAbsent(s: string, q: string, r: string)
    requires |q| > 0 && !Contains(s, q)
    ensures ReplaceAll(s, q, r) == s
    decreases |s|
  {
    if |s| >= |q| {
      assert !OccursAt(s, q, 0);
      assert s[..|q|] != q;
      if Contains(s[1..], q) {
        var i: nat :| OccursAt(s[1..], q, i);
        OccursInTail(s, q, 1, i);
        assert false;
      }
      ReplaceAbsent(s[1..], q, r);
      assert [s[0]] + s[1..] == s;
    }
  }

  /**
    Replacing `q` never lowers the number of `c` characters when `c` is not in
    `q`, and raises it when `q` occurs and `c` is in the replacement.
   */
  lemma {:induction false} ReplaceCount(s: string, q: string, r: string, c: char)
    requires |q| > 0 && c !in q && c in r
    ensures multiset(ReplaceAll(s, q, r))[c] >= multiset(s)[c]
    ensures Contains(s, q) ==> multiset(ReplaceAll(s, q, r))[c] > multiset(s)[c]
    decreases |s|
  {
    if |s| < |q| {
      assert !Contains(s, q);
    } else if s[..|q|] == q {
      var t := s[|q|..];
      ReplaceCount(t, q, r, c);
      assert s == q + t;
      CountConcat(q, t, c);
      CountConcat(r, ReplaceAll(t, q, r), c);
      assert multiset(q)[c] == 0;
      assert multiset(r)[c] >= 1;
    } else {
      var t := s[1..];
      ReplaceCount(t, q, r, c);
      if Contains(s, q) {
        ContainsInTail(s, q);
      }
      assert s == [s[0]] + t;
      CountConcat([s[0]], t, c);
      CountConcat([s[0]], ReplaceAll(t, q, r), c);
    }
  }

  /**
    When the replacement, like the search string, starts with a dot, a
    dot-free prefix of the result is an unchanged prefix of the input.
   */
  lemma {:induction false} ReplaceDotFreePrefix(s: string, q: string, r: string, k: nat)
    requires |q| > 0 && q[0] == '.' && |r| > 0 && r[0] == '.'
    requires k <= |ReplaceAll(s, q, r)| && '.' !in ReplaceAll(s, q, r)[..k]
    ensures k <= |s| && s[..k] == ReplaceAll(s, q, r)[..k]
    decreases |s|
  {
    if k > 0 && |s| >= |q| {
      var x := ReplaceAll(s, q, r);
      // A match would put the dot of `r` first, so the first step keeps `s[0]`.
      assert x[..k][0] == x[0];
      var t := s[1..];
      var y := ReplaceAll(t, q, r);
      assert x == [s[0]] + y;
      assert y[..k - 1] == x[..k][1..];
      ReplaceDotFreePrefix(t, q, r, k - 1);
      assert s[..k] == [s[0]] + t[..k - 1];
      assert x[..k] == [s[0]] + y[..k - 1];
    }
  }

  /**
    A dot-led string whose second character differs from a dot-led pattern's
    creates no occurrence of the pattern in front of a string without one.
   */
  lemma NoOccurrenceAfterDotLed(a: string, b: string, n: string)
    requires DotLed(a) && DotLed(n) && |a| > 1 && |n| > 1 && a[1] != n[1]
    requires !Contains(b, n)
    ensures !Contains(a + b, n)
  {
    var x := a + b;
    forall i: nat | i <= |x| ensures !OccursAt(x, n, i) {
      if i + |n| <= |x| {
        if i >= |a| {
          assert x[i..i + |n|] == b[i - |a|..i - |a| + |n|];
          assert !OccursAt(b, n, i - |a|);
        } else if i == 0 {
          assert x[..|n|][1] == a[1];
        } else {
          assert x[i..i + |n|][0] == a[1..][i - 1];
        }
      }
    }
  }

  /**
    Replacing a dot-led `q` by a dot-led `r` leaves no occurrence of a dot-led
    `n` that `r` does not start: not of `q` itself, and not of any `n` the
    input lacked.
   */
  lemma {:induction false} ReplaceRemoves(s: string, q: string, r: string, n: string)
    requires DotLed(q) && DotLed(r) && DotLed(n) && |r| > 1 && |n| > 1 && r[1] != n[1]
    requires n == q || !Contains(s, n)
    ensures !Contains(ReplaceAll(s, q, r), n)
    decreases |s|
  {
    if |s| < |q| {
      assert n == q ==> !Contains(s, q);
    } else if s[..|q|] == q {
      var t := s[|q|..];
      if n != q && Contains(t, n) {
        var i: nat :| i <= |t| && OccursAt(t, n, i);
        OccursInTail(s, n, |q|, i);
        assert false;
      }
      ReplaceRemoves(t, q, r, n);
      NoOccurrenceAfterDotLed(r, ReplaceAll(t, q, r), n);
    } else {
      var t := s[1..];
      if n != q && Contains(t, n) {
        var i: nat :| i <= |t| && OccursAt(t, n, i);
        OccursInTail(s, n, 1, i);
        assert false;
      }
      ReplaceRemoves(t, q, r, n);
      assert !OccursAt(s, n, 0);
      assert s == [s[0]] + t;
      ConsNoOccurrence(s[0], t, q, r, n);
    }
  }

  /**
    One kept character in front of a replaced tail creates no occurrence of a
    dot-led pattern that the input does not have at its start.
   */
  lemma ConsNoOccurrence(c: char, t: string, q: string, r: string, n: string)
    requires |q| > 0 && q[0] == '.' && |r| > 0 && r[0] == '.' && DotLed(n) && |n| > 1
    requires !Contains(ReplaceAll(t, q, r), n) && !OccursAt([c] + t, n, 0)
    ensures !Contains([c] + ReplaceAll(t, q, r), n)
  {
    var y := ReplaceAll(t, q, r);
    var x := [c] + y;
    forall i: nat | i <= |x| ensures !OccursAt(x, n, i) {
      if i + |n| <= |x| {
        if i > 0 {
          assert x[i..i + |n|] == y[i - 1..i - 1 + |n|];
          assert !OccursAt(y, n, i - 1);
        } else if '.' !in y[..|n| - 1] {
          ReplaceDotFreePrefix(t, q, r, |n| - 1);
          assert x[..|n|] == [c] + y[..|n| - 1] == [c] + t[..|n| - 1] == ([c] + t)[..|n|];
        } else {
          assert x[..|n|][1..] == y[..|n| - 1];
          assert '.' !in n[1..];
        }
      }
    }
  }

  /** Counting a character distributes over concatenation. */
  lemma CountConcat(a: string, b: string, c: char)
    ensures multiset(a + b)[c] == multiset(a)[c] + multiset(b)[c]
  {
  }

  /** An occurrence that is not at the start is an occurrence in the tail. */
  lemma ContainsInTail(s: string, q: string)
    requires |s| > 0 && Contains(s, q) && !OccursAt(s, q, 0)
    ensures Contains(s[1..], q)
  {
    var i: nat :| i <= |s| && OccursAt(s, q, i);
    assert s[1..][i - 1..i - 1 + |q|] == s[i..i + |q|];
    assert OccursAt(s[1..], q, i - 1);
  }

  /**
    Appending a dot-led pattern to a string that does not contain it, then
    replacing, substitutes exactly that final pattern.
   */
  lemma {:induction false} ReplaceAppended(p: string, q: string, r: string)
    requires DotLed(q) && !Contains(p, q)
    ensures ReplaceAll(p + q, q, r) == p + r
    decreases |p|
  {
    var s := p + q;
    if p == [] {
      assert s == q;
      assert s[|q|..] == [];
      assert r + [] == r;
    } else {
      if |p| >= |q| {
        assert s[..|q|] == p[..|q|];
        assert !OccursAt(p, q, 0);
      } else {
        assert s[..|q|][|p|] == q[0];
        assert q[|p|] == q[1..][|p| - 1];
      }
      assert s[..|q|] != q;
      if Contains(p[1..], q) {
        var i: nat :| OccursAt(p[1..], q, i);
        OccursInTail(p, q, 1, i);
        assert false;
      }
      assert s[1..] == p[1..] + q;
      ReplaceAppended(p[1..], q, r);
      assert [p[0]] + (p[1..] + r) == p + r;
    }
  }

  /**
    Concatenation creates no new occurrence of `q` when the second part starts
    with a character that appears in `q` only at its head.
   */
  lemma NoOccurrenceConcat(a: string, b: string, q: string)
    requires |q| > 0 && !Contains(a, q) && !Contains(b, q)
    requires |b| > 0 && b[0] !in q[1..]
    ensures !Contains(a + b, q)
  {
    var s := a + b;
    forall i: nat | i <= |s| ensures !OccursAt(s, q, i) {
      if i + |q| <= |s| {
        if i + |q| <= |a| {
          assert s[i..i + |q|] == a[i..i + |q|];
          assert !OccursAt(a, q, i);
        } else if i >= |a| {
          assert s[i..i + |q|] == b[i - |a|..i - |a| + |q|];
          assert !OccursAt(b, q, i - |a|);
        } else {
          var k := |a| - i;
          assert s[i..i + |q|][k] == b[0];
          assert q[k] == q[1..][k - 1];
          assert q[k] != b[0];
        }
      }
    }
  }

  /** In a dot-led string a dot-led pattern can only occur at the start. */
  lemma DotLedOccurrence(t: string, q: string, i: nat)
    requires DotLed(t) && DotLed(q)
    ensures i != 0 ==> !OccursAt(t, q, i)
  {
  }

  /** A string without dots contains no dot-led pattern. */
  lemma NoDotNoOccurrence(s: string, q: string)
    requires '.' !in s && DotLed(q)
    ensures !Contains(s, q)
  {
    forall i: nat | i <= |s| ensures !OccursAt(s, q, i) {
      if i + |q| <= |s| {
        assert s[i..i + |q|][0] == s[i];
      }
    }
  }

  /** A prefix free of the pattern's first character survives replacement. */
  lemma {:induction false} ReplaceKeepsPrefix(s: string, q: string, r: string, k: nat)
    requires |q| > 0 && k <= |s| && q[0] !in s[..k]
    ensures k <= |ReplaceAll(s, q, r)| && ReplaceAll(s, q, r)[..k] == s[..k]
    decreases k
  {
    if k > 0 && |s| >= |q| {
      assert s[0] == s[..k][0];
      assert s[..|q|][0] == s[0];
      assert s[..|q|] != q;
      assert s[1..][..k - 1] == s[1..k];
      assert forall j :: 0 <= j < k - 1 ==> s[1..k][j] == s[..k][j + 1];
      ReplaceKeepsPrefix(s[1..], q, r, k - 1);
      var t := ReplaceAll(s[1..], q, r);
      assert ([s[0]] + t)[..k] == [s[0]] + t[..k - 1];
      assert s[..k] == [s[0]] + s[1..k];
    }
  }

  /** Replacing with a non-empty string never turns a non-empty string into "". */
  lemma ReplaceNonEmpty(s: string, q: string, r: string)
    requires |q| > 0 && |r| > 0 && s != ""
    ensures ReplaceAll(s, q, r) != ""
  {
  }

  /**
    PHP `explode(',', s)`: the pieces between commas, always at least one
    (`explode(',', "")` is `[""]`).
   */
  function Split(s: string): (parts: seq<string>)
    ensures |parts| > 0
    decreases |s|
  {
    if |s| == 0 then [""]
    else
      var rest := Split(s[1..]);
      if s[0] == ',' then [""] + rest
      else [[s[0]] + rest[0]] + rest[1..]
  }

  /** PHP `implode(',', parts)`. */
  function Join(parts: seq<string>): string
    requires |parts| > 0
  {
    if |parts| == 1 then parts[0] else parts[0] + "," + Join(parts[1..])
  }

  /** No piece produced by `Split` contains a comma. */
  lemma {:induction false} SplitPiecesHaveNoComma(s: string)
    ensures forall piece :: piece in Split(s) ==> ',' !in piece
    decreases |s|
  {
    if |s| > 0 {
      SplitPiecesHaveNoComma(s[1..]);
      var rest := Split(s[1..]);
      assert rest[0] in rest;
      forall piece | piece in rest[1..] ensures piece in rest { }
    }
  }

  /** Joining the pieces of a split gives back the original string. */
  lemma {:induction false} JoinSplit(s: string)
    ensures Join(Split(s)) == s
    decreases |s|
  {
    if |s| > 0 {
      JoinSplit(s[1..]);
      var rest := Split(s[1..]);
      if s[0] == ',' {
        assert Split(s)[1..] == rest;
        assert Join(Split(s)) == "" + "," + Join(rest);
      } else {
        var parts := [[s[0]] + rest[0]] + rest[1..];
        if |rest| == 1 {
          assert Join(parts) == [s[0]] + rest[0];
        } else {
          assert parts[1..] == rest[1..];
          assert Join(parts) == ([s[0]] + rest[0]) + "," + Join(rest[1..]);
          assert Join(rest) == rest[0] + "," + Join(rest[1..]);
        }
        assert s == [s[0]] + s[1..];
      }
    }
  }

  /** Splitting a comma-joined list of comma-free pieces gives back the pieces. */
  lemma {:induction false} SplitJoin(parts: seq<string>)
    requires |parts| > 0
    requires forall piece :: piece in parts ==> ',' !in piece
    ensures Split(Join(parts)) == parts
    decreases |parts|, |parts[0]|
  {
    var p := parts[0];
    assert p in parts;
    if |p| == 0 {
      if |parts| == 1 {
        assert Join(parts) == "";
      } else {
        var tail := parts[1..];
        forall piece | piece in tail ensures ',' !in piece { assert piece in parts; }
        SplitJoin(tail);
        var s := Join(parts);
        assert s == "," + Join(tail);
        assert s[1..] == Join(tail);
        assert Split(s) == [""] + tail;
        assert parts == [""] + tail;
      }
    } else {
      var shorter := [p[1..]] + parts[1..];
      forall piece | piece in shorter ensures ',' !in piece {
        if piece == p[1..] {
          assert forall j :: 0 <= j < |p[1..]| ==> p[1..][j] == p[j + 1];
        } else {
          assert piece in parts;
        }
      }
      SplitJoin(shorter);
      var s := Join(parts);
      assert shorter[1..] == parts[1..];
      assert Join(shorter) == s[1..] by {
        if |parts| == 1 {
          assert s == p;
        } else {
          assert s == p + "," + Join(parts[1..]);
          assert Join(shorter) == p[1..] + "," + Join(parts[1..]);
        }
      }
      assert s[0] == p[0];
      assert p[0] != ',';
      assert [p[0]] + p[1..] == p;
      assert parts == [p] + parts[1..];
    }
  }

  /** True iff every character of `s` is a decimal digit. */
  predicate AllDigits(s: string)
  {
    forall i :: 0 <= i < |s| ==> '0' <= s[i] <= '9'
  }

  function Pow10(w: nat): (p: nat)
    ensures p >= 1
  {
    if w == 0 then 1 else 10 * Pow10(w - 1)
  }

  /** The last `w` decimal digits of `n`, zero-padded (PHP `date` fields such as `m`, `d`, `H`). */
  function Digits(n: nat, w: nat): (s: string)
    ensures |s| == w && AllDigits(s)
  {
    if w == 0 then ""
    else Digits(n / 10, w - 1) + [(('0' as int) + n % 10) as char]
  }

  /** The number a string of decimal digits denotes. */
  function ParseDigits(s: string): nat
    requires AllDigits(s)
  {
    if s == [] then 0
    else ParseDigits(s[..|s| - 1]) * 10 + (s[|s| - 1] as int - '0' as int)
  }

  /** Reading back the digits of a number that fits recovers the number. */
  lemma {:induction false} ParseDigitsOfDigits(n: nat, w: nat)
    requires n < Pow10(w)
    ensures ParseDigits(Digits(n, w)) == n
  {
    if w > 0 {
      assert n / 10 < Pow10(w - 1);
      ParseDigitsOfDigits(n / 10, w - 1);
      var s := Digits(n, w);
      assert s[..|s| - 1] == Digits(n / 10, w - 1);
    }
  }

  /** Fixed-width rendering is injective on the numbers that fit. */
  lemma DigitsInjective(m: nat, n: nat, w: nat)
    requires m < Pow10(w) && n < Pow10(w) && Digits(m, w) == Digits(n, w)
    ensures m == n
  {
    ParseDigitsOfDigits(m, w);
    ParseDigitsOfDigits(n, w);
  }

  /** Both halves of equal concatenations agree when the first halves have equal length. */
  lemma ConcatCancel(a1: string, b1: string, a2: string, b2: string)
    requires a1 + b1 == a2 + b2 && |a1| == |a2|
    ensures a1 == a2 && b1 == b2
  {
    assert a1 == (a1 + b1)[..|a1|];
    assert a2 == (a2 + b2)[..|a2|];
    assert b1 == (a1 + b1)[|a1|..];
    assert b2 == (a2 + b2)[|a2|..];
  }
}
