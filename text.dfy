/** The PHP string built-ins the router relies on: `explode`, `join`,
    `trim` and `strtoupper`, defined on `seq<char>`. */
module Text {

  /** The characters PHP's `trim` strips by default:
      space, tab, newline, carriage return, NUL and vertical tab. */
  predicate IsSpace(c: char) {
    c == ' ' || c == '\t' || c == '\n' || c == '\r' || c == '\0' || c == '\U{000B}'
  }

  predicate AllSpace(s: string) {
    forall k :: 0 <= k < |s| ==> IsSpace(s[k])
  }

  /** `ltrim`: drops the leading run of whitespace and nothing else. */
  function TrimLeft(s: string): (r: string)
    ensures |r| <= |s| && r == s[|s| - |r|..]
    ensures forall k :: 0 <= k < |s| - |r| ==> IsSpace(s[k])
    ensures r != [] ==> !IsSpace(r[0])
  {
    if |s| > 0 && IsSpace(s[0]) then TrimLeft(s[1..]) else s
  }

  /** `rtrim`: drops the trailing run of whitespace and nothing else. */
  function TrimRight(s: string): (r: string)
    ensures |r| <= |s| && r == s[..|r|]
    ensures forall k :: |r| <= k < |s| ==> IsSpace(s[k])
    ensures r != [] ==> !IsSpace(r[|r| - 1])
  {
    if |s| > 0 && IsSpace(s[|s| - 1]) then TrimRight(s[..|s| - 1]) else s
  }

  /** `trim`: whitespace removed from both ends. */
  function Trim(s: string): string {
    TrimRight(TrimLeft(s))
  }

  /** `trim` yields the empty string exactly when the input is all whitespace. */
  lemma TrimEmptyIff(s: string)
    ensures Trim(s) == [] <==> AllSpace(s)
  {
    var l := TrimLeft(s);
    if Trim(s) == [] {
      assert |l| == 0;
    } else {
      var r := Trim(s);
      assert r[0] == l[0] == s[|s| - |l|];
    }
  }

  /** Text with no whitespace at either end is its own trim. */
  lemma TrimClean(s: string)
    requires |s| > 0 ==> !IsSpace(s[0]) && !IsSpace(s[|s| - 1])
    ensures Trim(s) == s
  {
    assert TrimLeft(s) == s;
  }

  /** PHP `explode(d, s)`: the pieces of `s` between occurrences of `d`,
      empty pieces included; never an empty list. */
  function Split(s: string, d: char): (r: seq<string>)
    ensures |r| >= 1
  {
    if |s| == 0 then [""]
    else
      var rest := Split(s[1..], d);
      if s[0] == d then [""] + rest
      else [[s[0]] + rest[0]] + rest[1..]
  }

  /** PHP `join(d, xs)` with a one-character glue. */
  function Join(xs: seq<string>, d: char): string {
    if |xs| == 0 then ""
    else if |xs| == 1 then xs[0]
    else xs[0] + [d] + Join(xs[1..], d)
  }

  /** No piece of `explode` contains the delimiter. */
  lemma {:induction false} SplitPiecesFree(s: string, d: char)
    ensures forall i :: 0 <= i < |Split(s, d)| ==> d !in Split(s, d)[i]
  {
    if |s| > 0 {
      SplitPiecesFree(s[1..], d);
    }
  }

  /** Gluing the pieces back together gives the original string. */
  lemma {:induction false} JoinSplit(s: string, d: char)
    ensures Join(Split(s, d), d) == s
  {
    if |s| > 0 {
      var rest := Split(s[1..], d);
      JoinSplit(s[1..], d);
      if s[0] == d {
        assert Split(s, d)[1..] == rest;
      } else {
        var r := Split(s, d);
        assert r[1..] == rest[1..];
        if |rest| == 1 {
          assert Join(r, d) == [s[0]] + rest[0];
        } else {
          assert Join(rest, d) == rest[0] + [d] + Join(rest[1..], d);
          assert Join(r, d) == [s[0]] + rest[0] + [d] + Join(rest[1..], d);
        }
      }
    }
  }

  /** Splitting a glued list of delimiter-free pieces gives the pieces back. */
  lemma {:induction false} SplitJoin(xs: seq<string>, d: char)
    requires |xs| >= 1
    requires forall i :: 0 <= i < |xs| ==> d !in xs[i]
    ensures Split(Join(xs, d), d) == xs
  {
    if |xs| == 1 {
      SplitFree(xs[0], d);
    } else {
      SplitJoin(xs[1..], d);
      assert Join(xs, d) == xs[0] + ([d] + Join(xs[1..], d));
      SplitConcat(xs[0], Join(xs[1..], d), d);
      SplitFree(xs[0], d);
      assert [xs[0]] + xs[1..] == xs;
    }
  }

  /** A string without the delimiter is a single piece. */
  lemma {:induction false} SplitFree(s: string, d: char)
    requires d !in s
    ensures Split(s, d) == [s]
  {
    if |s| > 0 {
      SplitFree(s[1..], d);
      assert [s[0]] + s[1..] == s;
    }
  }

  /** Splitting at one delimiter splits the two sides independently. */
  lemma {:induction false} SplitConcat(a: string, b: string, d: char)
    ensures Split(a + [d] + b, d) == Split(a, d) + Split(b, d)
  {
    if |a| == 0 {
      assert a + [d] + b == [d] + b;
      SplitConsDelim(b, d);
    } else {
      SplitConcat(a[1..], b, d);
      SplitConcatStep(a[0], a[1..], b, d);
      assert [a[0]] + a[1..] == a;
      assert [a[0]] + (a[1..] + [d] + b) == a + [d] + b;
    }
  }

  /** The inductive step of SplitConcat: one more leading character. */
  lemma SplitConcatStep(c: char, t: string, b: string, d: char)
    requires Split(t + [d] + b, d) == Split(t, d) + Split(b, d)
    ensures Split([c] + (t + [d] + b), d) == Split([c] + t, d) + Split(b, d)
  {
    var u := t + [d] + b;
    var st, sb := Split(t, d), Split(b, d);
    if c == d {
      SplitConsDelim(t, d);
      SplitConsDelim(u, d);
      assert [""] + (st + sb) == ([""] + st) + sb;
    } else {
      SplitConsOther(c, t, d);
      SplitConsOther(c, u, d);
      Reassoc([c], st, sb);
    }
  }
  /** Extending the first piece commutes with appending more pieces. */
  lemma Reassoc(c: string, st: seq<string>, sb: seq<string>)
    requires |st| >= 1
    ensures [c + (st + sb)[0]] + (st + sb)[1..] == ([c + st[0]] + st[1..]) + sb
  {
    assert (st + sb)[0] == st[0];
    assert (st + sb)[1..] == st[1..] + sb;
  }

  /** A leading delimiter yields an empty first piece. */
  lemma SplitConsDelim(t: string, d: char)
    ensures Split([d] + t, d) == [""] + Split(t, d)
  {
    assert ([d] + t)[1..] == t;
  }
  /** A leading non-delimiter joins the first piece. */
  lemma SplitConsOther(c: char, t: string, d: char)
    requires c != d
    ensures Split([c] + t, d) == [[c] + Split(t, d)[0]] + Split(t, d)[1..]
  {
    assert ([c] + t)[1..] == t;
  }
  /** The first piece of `explode` is the text before the first delimiter. */
  lemma {:induction false} SplitHead(s: string, d: char)
    ensures Split(s, d)[0] <= s
    ensures d !in Split(s, d)[0]
    ensures |Split(s, d)[0]| < |s| ==> s[|Split(s, d)[0]|] == d
  {
    if |s| > 0 {
      SplitHead(s[1..], d);
      var h := Split(s[1..], d)[0];
      if s[0] != d {
        assert Split(s, d)[0] == [s[0]] + h;
        assert [s[0]] + s[1..] == s;
      }
    }
  }

  /** `strtoupper` on one character: ASCII letters only. */
  function UpperChar(c: char): char {
    if 'a' <= c <= 'z' then (c as int - 32) as char else c
  }

  /** `strtoupper`. */
  function Upper(s: string): (r: string)
    ensures |r| == |s|
  {
    seq(|s|, i requires 0 <= i < |s| => UpperChar(s[i]))
  }

  /** Upper-casing turns each lower-case ASCII letter into its capital,
      leaves every other character as it is, and so leaves no lower-case
      ASCII letter. */
  lemma UpperSpec(s: string)
    ensures forall i :: 0 <= i < |s| && 'a' <= s[i] <= 'z' ==> Upper(s)[i] as int == s[i] as int - 32
    ensures forall i :: 0 <= i < |s| ==> !('a' <= Upper(s)[i] <= 'z')
    ensures forall i :: 0 <= i < |s| && !('a' <= s[i] <= 'z') ==> Upper(s)[i] == s[i]
  {
  }

  /** Upper-casing twice is upper-casing once. */
  lemma UpperIdempotent(s: string)
    ensures Upper(Upper(s)) == Upper(s)
  {
  }
}
