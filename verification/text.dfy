/**
 String primitives the gate relies on, stated with the semantics of the JavaScript
 built-ins they stand for: `String.prototype.split` with a one-character separator,
 the `\s` character class, the case folding of a `/i` regular expression without the
 `u` flag, and the decimal rendering of a number inside a template literal.
 */
module Text {

  /** The characters of the `\s` class of a JavaScript regular expression:
      WhiteSpace (tab, vertical tab, form feed, space, no-break space, byte order mark,
      and the Zs category) and LineTerminator (LF, CR, U+2028, U+2029). */
  predicate IsJsWhitespace(c: char)
  {
    var n := c as int;
    || n == 0x09 || n == 0x0A || n == 0x0B || n == 0x0C || n == 0x0D
    || n == 0x20 || n == 0xA0 || n == 0x1680 || (0x2000 <= n <= 0x200A)
    || n == 0x2028 || n == 0x2029 || n == 0x202F || n == 0x205F
    || n == 0x3000 || n == 0xFEFF
  }

  /** `s` with its leading run of `\s` characters removed. */
  function TrimLeft(s: string): (r: string)
    ensures |r| <= |s|
  {
    if |s| > 0 && IsJsWhitespace(s[0]) then TrimLeft(s[1..]) else s
  }

  /** What trimming removes is a run of whitespace at the front, and all of it. */
  lemma {:induction false} TrimLeftRemovesWhitespacePrefix(s: string)
    ensures TrimLeft(s) == s[|s| - |TrimLeft(s)|..]
    ensures |TrimLeft(s)| == 0 || !IsJsWhitespace(TrimLeft(s)[0])
    ensures forall i :: 0 <= i < |s| - |TrimLeft(s)| ==> IsJsWhitespace(s[i])
    decreases |s|
  {
    if |s| > 0 && IsJsWhitespace(s[0]) {
      TrimLeftRemovesWhitespacePrefix(s[1..]);
      forall i | 0 < i < |s| - |TrimLeft(s)| ensures IsJsWhitespace(s[i]) {
        assert s[i] == s[1..][i - 1];
      }
    }
  }

  /** Trimming skips exactly a whitespace prefix: whatever follows it is kept whole. */
  lemma {:induction false} TrimLeftSkips(w: string, x: string)
    requires forall i :: 0 <= i < |w| ==> IsJsWhitespace(w[i])
    requires |x| == 0 || !IsJsWhitespace(x[0])
    ensures TrimLeft(w + x) == x
    decreases |w|
  {
    if |w| > 0 {
      assert (w + x)[1..] == w[1..] + x;
      TrimLeftSkips(w[1..], x);
    } else {
      assert w + x == x;
    }
  }

  /** Trimming a string followed by a non-whitespace tail only touches the head. */
  lemma {:induction false} TrimLeftConcat(x: string, y: string)
    requires |y| > 0 && !IsJsWhitespace(y[0])
    ensures TrimLeft(x + y) == TrimLeft(x) + y
    decreases |x|
  {
    if |x| == 0 {
      assert x + y == y;
    } else {
      assert (x + y)[0] == x[0];
      assert (x + y)[1..] == x[1..] + y;
      TrimLeftConcat(x[1..], y);
    }
  }

  /** `s.split(d)` for a one-character separator `d`: the maximal `d`-free pieces
      between occurrences of `d`, one more piece than there are separators. */
  function Split(s: string, d: char): (r: seq<string>)
    ensures |r| >= 1
    ensures forall i :: 0 <= i < |r| ==> d !in r[i]
    ensures |r[0]| <= |s| && r[0] == s[..|r[0]|]
    decreases |s|
  {
    if |s| == 0 then [""]
    else if s[0] == d then [""] + Split(s[1..], d)
    else
      var rest := Split(s[1..], d);
      [[s[0]] + rest[0]] + rest[1..]
  }

  /** `ps.join(d)`: the inverse of `Split`. */
  function Join(ps: seq<string>, d: char): string
    requires |ps| >= 1
  {
    if |ps| == 1 then ps[0] else ps[0] + [d] + Join(ps[1..], d)
  }

  lemma JoinPrefixHead(x: string, ps: seq<string>, d: char)
    requires |ps| >= 1
    ensures Join([x + ps[0]] + ps[1..], d) == x + Join(ps, d)
  {
  }

  /** Joining the pieces of a split gives back the original string. */
  lemma {:induction false} JoinSplit(s: string, d: char)
    ensures Join(Split(s, d), d) == s
    decreases |s|
  {
    if |s| == 0 {
    } else if s[0] == d {
      var r := Split(s, d);
      assert r[1..] == Split(s[1..], d);
      JoinSplit(s[1..], d);
      assert s == [d] + s[1..];
    } else {
      var rest := Split(s[1..], d);
      JoinSplit(s[1..], d);
      JoinPrefixHead([s[0]], rest, d);
      assert s == [s[0]] + s[1..];
    }
  }

  /** A string free of the separator splits into itself alone. */
  lemma {:induction false} SplitWithoutSeparator(s: string, d: char)
    requires d !in s
    ensures Split(s, d) == [s]
    decreases |s|
  {
    if |s| > 0 {
      assert d !in s[1..] by {
        forall i | 0 <= i < |s[1..]| ensures s[1..][i] != d {
          assert s[1..][i] == s[i + 1];
        }
      }
      SplitWithoutSeparator(s[1..], d);
      assert [s[0]] + s[1..] == s;
    }
  }

  /** A separator splits the string into the pieces of the part before it followed by
      the pieces of the part after it. */
  lemma {:induction false} SplitAround(a: string, b: string, d: char)
    ensures Split(a + [d] + b, d) == Split(a, d) + Split(b, d)
    decreases |a|
  {
    var s := a + [d] + b;
    if |a| == 0 {
      assert s == [d] + b;
      assert s[1..] == b;
    } else {
      assert s[0] == a[0];
      assert s[1..] == a[1..] + [d] + b;
      SplitAround(a[1..], b, d);
      if a[0] == d {
      } else {
        var p := Split(a[1..], d);
        var q := Split(b, d);
        var rest := Split(s[1..], d);
        assert rest == p + q;
        assert rest[0] == p[0];
        assert rest[1..] == p[1..] + q;
      }
    }
  }

  /** Splitting undoes joining when no piece holds the separator. */
  lemma {:induction false} SplitJoin(ps: seq<string>, d: char)
    requires |ps| >= 1
    requires forall i :: 0 <= i < |ps| ==> d !in ps[i]
    ensures Split(Join(ps, d), d) == ps
    decreases |ps|
  {
    SplitWithoutSeparator(ps[0], d);
    if |ps| > 1 {
      SplitJoin(ps[1..], d);
      SplitAround(ps[0], Join(ps[1..], d), d);
      assert [ps[0]] + ps[1..] == ps;
    }
  }

  /** A separator-free prefix is glued to the first piece. */
  lemma {:induction false} SplitPrefix(w: string, t: string, d: char)
    requires d !in w
    ensures Split(w + t, d) == [w + Split(t, d)[0]] + Split(t, d)[1..]
    decreases |w|
  {
    if |w| == 0 {
      assert w + t == t;
      assert w + Split(t, d)[0] == Split(t, d)[0];
      assert [Split(t, d)[0]] + Split(t, d)[1..] == Split(t, d);
    } else {
      var s := w + t;
      assert s[0] == w[0];
      assert s[1..] == w[1..] + t;
      assert d !in w[1..] by {
        forall i | 0 <= i < |w[1..]| ensures w[1..][i] != d {
          assert w[1..][i] == w[i + 1];
        }
      }
      SplitPrefix(w[1..], t, d);
      assert [w[0]] + (w[1..] + Split(t, d)[0]) == w + Split(t, d)[0];
    }
  }

  /** ASCII case folding. Without the `u` flag a `/i` pattern also folds non-ASCII
      letters among themselves, but no non-ASCII character folds to an ASCII one; so for
      a pattern made of ASCII characters only, as every pattern of the gate is, folding
      ASCII letters is exact. */
  function Lower(c: char): char
  {
    if 'A' <= c <= 'Z' then (c as int + 32) as char else c
  }

  /** Case-insensitive equality of two strings of equal length. */
  predicate FoldEq(a: string, b: string)
  {
    |a| == |b| && forall k :: 0 <= k < |a| ==> Lower(a[k]) == Lower(b[k])
  }

  /** `t` occurs in `s` at offset `i`, ignoring ASCII case. */
  ghost predicate OccursAt(t: string, s: string, i: int)
  {
    0 <= i && i + |t| <= |s| && FoldEq(s[i..i + |t|], t)
  }

  /** Some occurrence of `t` in `s` starts at or after offset `from`. */
  function ContainsFrom(s: string, t: string, from: nat): (r: bool)
    ensures r <==> exists i :: from <= i && OccursAt(t, s, i)
    decreases |s| - from
  {
    if from + |t| > |s| then false
    else if FoldEq(s[from..from + |t|], t) then assert OccursAt(t, s, from); true
    else ContainsFrom(s, t, from + 1)
  }

  /** `new RegExp(t, "i").test(s)` for a literal pattern `t` of ASCII characters. */
  function Contains(s: string, t: string): (r: bool)
    ensures r <==> exists i :: OccursAt(t, s, i)
  {
    ContainsFrom(s, t, 0)
  }

  /** The decimal digit for `d`. */
  function Digit(d: nat): (c: char)
    requires d < 10
    ensures '0' <= c <= '9'
  {
    ('0' as int + d) as char
  }

  predicate IsDigits(s: string)
  {
    forall i :: 0 <= i < |s| ==> '0' <= s[i] <= '9'
  }

  /** `${n}` for a non-negative integer: its shortest decimal rendering. */
  function NatToDecimal(n: nat): (s: string)
    ensures |s| >= 1 && IsDigits(s)
    ensures |s| > 1 ==> s[0] != '0'
    decreases n
  {
    if n < 10 then [Digit(n)] else NatToDecimal(n / 10) + [Digit(n % 10)]
  }

  /** The number a string of decimal digits denotes. */
  function DecimalValue(s: string): nat
    requires IsDigits(s)
  {
    if |s| == 0 then 0
    else DecimalValue(s[..|s| - 1]) * 10 + (s[|s| - 1] as int - '0' as int)
  }

  /** Reading back a rendered number yields the number. */
  lemma {:induction false} DecimalRoundTrip(n: nat)
    ensures DecimalValue(NatToDecimal(n)) == n
    decreases n
  {
    var s := NatToDecimal(n);
    if n >= 10 {
      DecimalRoundTrip(n / 10);
      assert s[..|s| - 1] == NatToDecimal(n / 10);
    }
  }
}
