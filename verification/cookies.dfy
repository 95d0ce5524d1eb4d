/**
 The gate's `parseCookies` helper (functions/_middleware.js:9-11), as written rather
 than as an idealised cookie parser: the header is split on `;\s*`, empty pieces are
 dropped, every piece is split on EVERY `=`, and `Object.fromEntries` keeps part 0 as
 the name and part 1 (or `undefined`) as the value, later names overriding earlier ones.
 */
module Cookies {
  import opened Wrappers
  import opened Text

  /** One `[name, value]` pair handed to `Object.fromEntries`; `None` is `undefined`. */
  datatype CookieEntry = CookieEntry(name: string, value: Option<string>)

  /** The object `parseCookies` returns: a name is present with a string or an
      `undefined` value, or absent. */
  type Jar = map<string, Option<string>>

  /** `header.split` on the pattern `;\s*`: pieces end at a `;`, and the `;` together with the
      longest run of `\s` after it is the separator that is dropped. */
  function SplitPieces(s: string): (r: seq<string>)
    ensures |r| >= 1
    decreases |s|
  {
    if |s| == 0 then [""]
    else if s[0] == ';' then [""] + SplitPieces(TrimLeft(s[1..]))
    else
      var rest := SplitPieces(s[1..]);
      [[s[0]] + rest[0]] + rest[1..]
  }

  /** Every piece trimmed on the left. */
  function TrimAll(ps: seq<string>): (r: seq<string>)
    ensures |r| == |ps|
  {
    if |ps| == 0 then [] else [TrimLeft(ps[0])] + TrimAll(ps[1..])
  }

  /** The regular-expression split is the plain split on `;` with every piece but the
      first stripped of its leading whitespace. */
  lemma {:induction false} SplitPiecesIsTrimmedSplit(s: string)
    ensures SplitPieces(s) == [Split(s, ';')[0]] + TrimAll(Split(s, ';')[1..])
    decreases |s|
  {
    if |s| == 0 {
    } else if s[0] == ';' {
      var t := TrimLeft(s[1..]);
      SplitPiecesIsTrimmedSplit(t);
      SkippedWhitespaceIsTrimmed(s[1..]);
      assert Split(s, ';')[1..] == Split(s[1..], ';');
    } else {
      SplitPiecesIsTrimmedSplit(s[1..]);
      var sp := Split(s[1..], ';');
      assert Split(s, ';')[1..] == sp[1..];
    }
  }

  /** After a `;`, trimming the first plain-split piece equals splitting what is left
      once the whitespace has been skipped. */
  lemma SkippedWhitespaceIsTrimmed(u: string)
    ensures TrimAll(Split(u, ';')) == [Split(TrimLeft(u), ';')[0]] + TrimAll(Split(TrimLeft(u), ';')[1..])
  {
    var st := Split(TrimLeft(u), ';');
    var su := Split(u, ';');
    WhitespaceJoinsFirstPiece(u);
    assert su[1..] == st[1..];
    assert TrimAll(su) == [TrimLeft(su[0])] + TrimAll(su[1..]);
  }

  /** The whitespace in front of `u` belongs to the first plain-split piece of `u`, and
      trimming that piece removes exactly it. */
  lemma WhitespaceJoinsFirstPiece(u: string)
    ensures var st := Split(TrimLeft(u), ';');
            && Split(u, ';') == [u[..|u| - |TrimLeft(u)|] + st[0]] + st[1..]
            && TrimLeft(Split(u, ';')[0]) == st[0]
  {
    var t := TrimLeft(u);
    var st := Split(t, ';');
    var w := u[..|u| - |t|];
    TrimLeftRemovesWhitespacePrefix(u);
    assert u == w + t;
    assert ';' !in w by {
      forall i | 0 <= i < |w| ensures w[i] != ';' {
        assert IsJsWhitespace(u[i]);
      }
    }
    SplitPrefix(w, t, ';');
    assert |st[0]| == 0 || !IsJsWhitespace(st[0][0]) by {
      if |st[0]| > 0 {
        assert st[0][0] == t[0];
      }
    }
    TrimLeftSkips(w, st[0]);
  }

  lemma {:induction false} TrimAllAt(ps: seq<string>, i: int)
    requires 0 <= i < |ps|
    ensures TrimAll(ps)[i] == TrimLeft(ps[i])
    decreases |ps|
  {
    if i > 0 {
      TrimAllAt(ps[1..], i - 1);
    }
  }

  /** No piece holds a `;`, and no piece after the first starts with whitespace. */
  lemma SplitPiecesShape(s: string, i: int)
    requires 0 <= i < |SplitPieces(s)|
    ensures ';' !in SplitPieces(s)[i]
    ensures i > 0 && |SplitPieces(s)[i]| > 0 ==> !IsJsWhitespace(SplitPieces(s)[i][0])
  {
    SplitPiecesIsTrimmedSplit(s);
    TrimmedPiecesShape(Split(s, ';'), i);
  }

  /** Pieces free of `;` stay free of it once trimmed, and a trimmed piece does not
      start with whitespace. */
  lemma TrimmedPiecesShape(sp: seq<string>, i: int)
    requires |sp| >= 1
    requires forall j :: 0 <= j < |sp| ==> ';' !in sp[j]
    requires 0 <= i < |sp|
    ensures ';' !in ([sp[0]] + TrimAll(sp[1..]))[i]
    ensures i > 0 && |([sp[0]] + TrimAll(sp[1..]))[i]| > 0 ==>
              !IsJsWhitespace(([sp[0]] + TrimAll(sp[1..]))[i][0])
  {
    var r := [sp[0]] + TrimAll(sp[1..]);
    if i > 0 {
      TrimAllAt(sp[1..], i - 1);
      var raw := sp[1..][i - 1];
      assert raw == sp[i];
      assert r[i] == TrimLeft(raw);
      TrimLeftRemovesWhitespacePrefix(raw);
      var t := TrimLeft(raw);
      assert ';' !in t by {
        forall j | 0 <= j < |t| ensures t[j] != ';' {
          assert t[j] == raw[|raw| - |t| + j];
        }
      }
    }
  }

  /** A `;` splits the header into the pieces before it and the pieces of what follows
      it once its leading whitespace is gone. */
  lemma {:induction false} SplitPiecesAround(a: string, b: string)
    ensures SplitPieces(a + [';'] + b) == SplitPieces(a) + SplitPieces(TrimLeft(b))
    decreases |a|, 1
  {
    if |a| == 0 {
      var s := a + [';'] + b;
      assert s == [';'] + b;
      assert s[1..] == b;
    } else if a[0] == ';' {
      SplitPiecesAroundEmptyHead(a, b);
    } else {
      SplitPiecesAroundFullHead(a, b);
    }
  }

  lemma {:induction false} SplitPiecesAroundEmptyHead(a: string, b: string)
    requires |a| > 0 && a[0] == ';'
    ensures SplitPieces(a + [';'] + b) == SplitPieces(a) + SplitPieces(TrimLeft(b))
    decreases |a|, 0
  {
    var s := a + [';'] + b;
    var x := TrimLeft(a[1..]);
    assert s[0] == ';';
    assert s[1..] == a[1..] + ([';'] + b);
    TrimLeftConcat(a[1..], [';'] + b);
    assert TrimLeft(s[1..]) == x + [';'] + b;
    SplitPiecesAround(x, b);
  }

  lemma {:induction false} SplitPiecesAroundFullHead(a: string, b: string)
    requires |a| > 0 && a[0] != ';'
    ensures SplitPieces(a + [';'] + b) == SplitPieces(a) + SplitPieces(TrimLeft(b))
    decreases |a|, 0
  {
    var s := a + [';'] + b;
    var p := SplitPieces(a[1..]);
    var q := SplitPieces(TrimLeft(b));
    var rest := SplitPieces(s[1..]);
    assert rest == p + q by {
      assert s[1..] == a[1..] + [';'] + b;
      SplitPiecesAround(a[1..], b);
    }
    assert SplitPieces(s) == [[a[0]] + rest[0]] + rest[1..] by {
      assert s[0] == a[0];
    }
    assert SplitPieces(a) == [[a[0]] + p[0]] + p[1..];
    ExtendFirstPiece([a[0]], p, q);
  }

  /** Extending the first piece of `p + q` extends the first piece of `p`. */
  lemma ExtendFirstPiece(c: string, p: seq<string>, q: seq<string>)
    requires |p| >= 1
    ensures [c + (p + q)[0]] + (p + q)[1..] == ([c + p[0]] + p[1..]) + q
  {
    assert (p + q)[0] == p[0];
    assert (p + q)[1..] == p[1..] + q;
  }

  /** A header without `;` is one piece. */
  lemma {:induction false} SplitPiecesSingle(s: string)
    requires ';' !in s
    ensures SplitPieces(s) == [s]
    decreases |s|
  {
    if |s| > 0 {
      assert ';' !in s[1..] by {
        forall i | 0 <= i < |s[1..]| ensures s[1..][i] != ';' {
          assert s[1..][i] == s[i + 1];
        }
      }
      SplitPiecesSingle(s[1..]);
      assert [s[0]] + s[1..] == s;
    }
  }

  /** `.filter(Boolean)`: the non-empty pieces, in order. */
  function NonEmpty(ps: seq<string>): (r: seq<string>)
    ensures forall p :: p in r <==> p in ps && p != ""
    ensures multiset(r) == multiset(ps)["" := 0]
    ensures |r| <= |ps|
  {
    if |ps| == 0 then []
    else
      assert ps == [ps[0]] + ps[1..];
      if ps[0] == "" then NonEmpty(ps[1..])
      else [ps[0]] + NonEmpty(ps[1..])
  }

  /** `.filter(Boolean)` keeps the order: filtering a concatenation concatenates the
      filtered parts, and one piece is kept exactly when it is non-empty. */
  lemma NonEmptyConcat(a: seq<string>, b: seq<string>)
    ensures NonEmpty(a + b) == NonEmpty(a) + NonEmpty(b)
    ensures forall p :: NonEmpty([p]) == (if p == "" then [] else [p])
  {
    forall p ensures NonEmpty([p]) == (if p == "" then [] else [p]) {
      NonEmptySingle(p);
    }
    NonEmptyDistributes(a, b);
  }

  lemma {:induction false} NonEmptyDistributes(a: seq<string>, b: seq<string>)
    ensures NonEmpty(a + b) == NonEmpty(a) + NonEmpty(b)
    decreases |a|
  {
    if |a| == 0 {
      assert a + b == b;
    } else {
      var ab := a + b;
      assert ab[0] == a[0];
      assert ab[1..] == a[1..] + b;
      NonEmptyDistributes(a[1..], b);
      if a[0] == "" {
        assert NonEmpty(ab) == NonEmpty(a[1..] + b);
        assert NonEmpty(a) == NonEmpty(a[1..]);
      } else {
        assert NonEmpty(ab) == [a[0]] + NonEmpty(a[1..] + b);
        assert NonEmpty(a) == [a[0]] + NonEmpty(a[1..]);
      }
    }
  }

  /** One piece is kept exactly when it is non-empty. */
  lemma NonEmptySingle(p: string)
    ensures NonEmpty([p]) == (if p == "" then [] else [p])
  {
    assert [p][1..] == [];
  }

  /** `c.split('=')` seen through `Object.fromEntries`: part 0 is the name and part 1,
      when there is one, the value; parts after the second `=` are ignored. */
  function ToEntry(piece: string): (e: CookieEntry)
    ensures '=' !in e.name
    ensures e.value.None? <==> '=' !in piece
  {
    var parts := Split(piece, '=');
    assert '=' !in piece ==> parts == [piece] by {
      if '=' !in piece {
        SplitWithoutSeparator(piece, '=');
      }
    }
    assert '=' in piece ==> |parts| >= 2 by {
      if '=' in piece && |parts| == 1 {
        JoinSplit(piece, '=');
      }
    }
    CookieEntry(parts[0], if |parts| >= 2 then Some(parts[1]) else None)
  }

  /** The value of a piece is exactly the text between its first and second `=`. */
  lemma EntryBetweenSeparators(name: string, value: string, rest: string)
    requires '=' !in name && '=' !in value
    requires rest == "" || rest[0] == '='
    ensures ToEntry(name + "=" + value + rest) == CookieEntry(name, Some(value))
  {
    SplitWithoutSeparator(name, '=');
    if rest == "" {
      SplitWithoutSeparator(value, '=');
      assert name + "=" + value + rest == name + ['='] + value;
      SplitAround(name, value, '=');
    } else {
      var tail := rest[1..];
      assert rest == ['='] + tail;
      assert name + "=" + value + rest == name + ['='] + (value + ['='] + tail);
      SplitAround(value, tail, '=');
      SplitWithoutSeparator(value, '=');
      SplitAround(name, value + ['='] + tail, '=');
    }
  }

  /** A piece without `=` names a cookie whose value is `undefined`. */
  lemma BareNameIsUndefined(piece: string)
    requires '=' !in piece
    ensures ToEntry(piece) == CookieEntry(piece, None)
  {
    SplitWithoutSeparator(piece, '=');
  }

  function ToEntries(ps: seq<string>): (es: seq<CookieEntry>)
    ensures |es| == |ps|
    ensures forall i :: 0 <= i < |ps| ==> es[i] == ToEntry(ps[i])
  {
    seq(|ps|, i requires 0 <= i < |ps| => ToEntry(ps[i]))
  }

  /** Entry `i` is the last one carrying its name. */
  ghost predicate IsLastOfName(es: seq<CookieEntry>, i: int)
  {
    0 <= i < |es| && forall j :: i < j < |es| ==> es[j].name != es[i].name
  }

  /** `Object.fromEntries(es)`: entries are stored in order, so a later entry
      overwrites an earlier one with the same name. */
  function FromEntries(es: seq<CookieEntry>): Jar
    decreases |es|
  {
    if |es| == 0 then map[]
    else
      var last := es[|es| - 1];
      FromEntries(es[..|es| - 1])[last.name := last.value]
  }

  /** A name is in the object iff some entry carries it. */
  lemma {:induction false} FromEntriesNames(es: seq<CookieEntry>, k: string)
    ensures k in FromEntries(es) <==> exists i :: 0 <= i < |es| && es[i].name == k
    decreases |es|
  {
    if |es| > 0 {
      var init := es[..|es| - 1];
      FromEntriesNames(init, k);
      if exists i :: 0 <= i < |init| && init[i].name == k {
        var i :| 0 <= i < |init| && init[i].name == k;
        assert es[i].name == k;
      }
      if exists i :: 0 <= i < |es| && es[i].name == k {
        var i :| 0 <= i < |es| && es[i].name == k;
        if i < |es| - 1 {
          assert init[i].name == k;
        }
      }
    }
  }

  /** The value stored under a name is that of the LAST entry carrying it. */
  lemma {:induction false} FromEntriesLastWins(es: seq<CookieEntry>, i: int)
    requires IsLastOfName(es, i)
    ensures es[i].name in FromEntries(es) && FromEntries(es)[es[i].name] == es[i].value
    decreases |es|
  {
    if i < |es| - 1 {
      var init := es[..|es| - 1];
      assert es[|es| - 1].name != es[i].name;
      assert IsLastOfName(init, i);
      FromEntriesLastWins(init, i);
    }
  }

  /** `parseCookies(request.headers.get('cookie') || '')`; a missing header reads as `""`. */
  function Parse(header: Option<string>): (jar: Jar)
    ensures header.GetOr("") == "" ==> jar == map[]
    ensures forall k :: k in jar ==> '=' !in k
  {
    var es := ToEntries(NonEmpty(SplitPieces(header.GetOr(""))));
    var jar := FromEntries(es);
    assert forall k :: k in jar ==> '=' !in k by {
      forall k | k in jar ensures '=' !in k {
        FromEntriesNames(es, k);
      }
    }
    jar
  }

  /** Reading `cookies[name]`: `undefined` (None) when the name is absent or has no value. */
  function Get(jar: Jar, name: string): Option<string>
  {
    if name in jar then jar[name] else None
  }

  /** A cookie appended at the end of the header overrides any earlier cookie of the
      same name, and the whitespace after the `;` does not become part of its name. */
  lemma LaterCookieWins(header: string, sep: string, name: string, value: string)
    requires forall i :: 0 <= i < |sep| ==> IsJsWhitespace(sep[i])
    requires ';' !in name && '=' !in name && ';' !in value && '=' !in value
    requires |name| == 0 || !IsJsWhitespace(name[0])
    ensures Get(Parse(Some(header + ";" + sep + name + "=" + value)), name) == Some(value)
  {
    var c := name + "=" + value;
    var full := header + ";" + sep + name + "=" + value;
    assert full == header + [';'] + (sep + c);
    var pieces := NonEmpty(SplitPieces(header)) + [c];
    assert NonEmpty(SplitPieces(full)) == pieces by {
      AppendedPieceIsLast(header, sep, c);
    }
    var es := ToEntries(pieces);
    assert es[|es| - 1] == CookieEntry(name, Some(value)) by {
      EntryBetweenSeparators(name, value, "");
      assert c + "" == c;
    }
    FromEntriesLastWins(es, |es| - 1);
  }

  /** A `;`-free piece after the last `;` and its whitespace is the last piece kept. */
  lemma AppendedPieceIsLast(header: string, sep: string, c: string)
    requires forall i :: 0 <= i < |sep| ==> IsJsWhitespace(sep[i])
    requires |c| > 0 && !IsJsWhitespace(c[0]) && ';' !in c
    ensures NonEmpty(SplitPieces(header + [';'] + (sep + c))) == NonEmpty(SplitPieces(header)) + [c]
  {
    TrimLeftSkips(sep, c);
    SplitPiecesAround(header, sep + c);
    SplitPiecesSingle(c);
    NonEmptyConcat(SplitPieces(header), [c]);
  }

  /** A header that is one `name=value` cookie, possibly followed by more `=`-separated
      text, parses to that cookie alone: the text after the second `=` is dropped. */
  lemma SingleCookie(name: string, value: string, rest: string)
    requires ';' !in name && '=' !in name && ';' !in value && '=' !in value && ';' !in rest
    requires rest == "" || rest[0] == '='
    ensures Parse(Some(name + "=" + value + rest)) == map[name := Some(value)]
  {
    var c := name + "=" + value + rest;
    assert ';' !in c;
    SplitPiecesSingle(c);
    EntryBetweenSeparators(name, value, rest);
    assert NonEmpty([c]) == [c];
    var es := ToEntries([c]);
    assert es == [CookieEntry(name, Some(value))];
    assert es[..0] == [];
    assert FromEntries(es) == map[name := Some(value)];
    assert Some(c).GetOr("") == c;
    assert Parse(Some(c)) == FromEntries(ToEntries(NonEmpty(SplitPieces(c))));
  }

  /** A bare `rt_pass` piece is present in the jar but reads as `undefined`. */
  lemma BarePassReadsUndefined()
    ensures "rt_pass" in Parse(Some("rt_pass"))
    ensures Get(Parse(Some("rt_pass")), "rt_pass") == None
  {
    SplitPiecesSingle("rt_pass");
    BareNameIsUndefined("rt_pass");
    assert NonEmpty(["rt_pass"]) == ["rt_pass"];
  }
}
