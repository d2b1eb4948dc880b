/**
 * The JavaScript string built-ins the server relies on, stated over
 * `seq<char>`: `trim`, `split(/\s+/)`, `join`, `substring(0, n)`,
 * `toLowerCase`, `replace(literal, "")` and number-to-string conversion.
 */
module Text {

  /** The characters matched by `\s` and removed by `trim` in JavaScript. */
  predicate IsSpace(c: char) {
    c == ' ' || c == '\t' || c == '\n' || c == '\r' || c == '\U{000B}' || c == '\U{000C}'
    || c == '\U{00A0}' || c == '\U{1680}' || ('\U{2000}' <= c <= '\U{200A}')
    || c == '\U{2028}' || c == '\U{2029}' || c == '\U{202F}' || c == '\U{205F}'
    || c == '\U{3000}' || c == '\U{FEFF}'
  }

  /** Every character is white space (this includes the empty string). */
  predicate Blank(s: string) {
    forall i :: 0 <= i < |s| ==> IsSpace(s[i])
  }

  /** No character is white space. */
  predicate NoSpace(s: string) {
    forall i :: 0 <= i < |s| ==> !IsSpace(s[i])
  }

  /** String concatenation is associative. */
  lemma AppendAssoc(a: string, b: string, c: string)
    ensures (a + b) + c == a + (b + c)
  {
  }

  /** `s.substring(0, n)`: the first `n` characters, or all of `s` when it is shorter. */
  function Prefix(s: string, n: nat): (r: string)
    ensures |r| == if |s| <= n then |s| else n
    ensures r <= s
  {
    if |s| <= n then s else s[..n]
  }

  /** Drops the leading white space. */
  function TrimStart(s: string): (r: string)
    ensures |r| <= |s|
  {
    if s != [] && IsSpace(s[0]) then TrimStart(s[1..]) else s
  }

  /** Drops the trailing white space. */
  function TrimEnd(s: string): (r: string)
    ensures |r| <= |s|
  {
    if s != [] && IsSpace(s[|s| - 1]) then TrimEnd(s[..|s| - 1]) else s
  }

  /** `s.trim()`. */
  function Trim(s: string): (r: string)
    ensures |r| <= |s|
  {
    TrimEnd(TrimStart(s))
  }

  /** `TrimStart` keeps a suffix, cuts only white space, and what it keeps starts with a non-space. */
  lemma {:induction false} TrimStartShape(s: string)
    ensures TrimStart(s) == s[|s| - |TrimStart(s)|..]
    ensures Blank(s[..|s| - |TrimStart(s)|])
    ensures TrimStart(s) != [] ==> !IsSpace(TrimStart(s)[0])
    decreases |s|
  {
    if s != [] && IsSpace(s[0]) {
      TrimStartShape(s[1..]);
      var k := |s| - |TrimStart(s)|;
      assert s[1..][..k - 1] == s[1..k];
      assert forall i :: 1 <= i < k ==> s[i] == s[1..k][i - 1];
    }
  }

  /** `TrimEnd` keeps a prefix, cuts only white space, and what it keeps ends with a non-space. */
  lemma {:induction false} TrimEndShape(s: string)
    ensures TrimEnd(s) == s[..|TrimEnd(s)|]
    ensures Blank(s[|TrimEnd(s)|..])
    ensures TrimEnd(s) != [] ==> !IsSpace(TrimEnd(s)[|TrimEnd(s)| - 1])
    decreases |s|
  {
    if s != [] && IsSpace(s[|s| - 1]) {
      var t := s[..|s| - 1];
      TrimEndShape(t);
      var k := |TrimEnd(s)|;
      assert t[..k] == s[..k];
      assert forall i :: k <= i < |s| - 1 ==> s[i] == t[k..][i - k];
    }
  }

  /** `trim` leaves a middle slice of `s`: only white space is cut away, at both ends,
      and what is left neither starts nor ends with white space. */
  lemma TrimSlice(s: string)
    ensures exists i, j :: (0 <= i <= j <= |s| && Trim(s) == s[i..j] && Blank(s[..i]) && Blank(s[j..]))
    ensures Trim(s) != [] ==> !IsSpace(Trim(s)[0]) && !IsSpace(Trim(s)[|Trim(s)| - 1])
  {
    var t := TrimStart(s);
    TrimStartShape(s);
    TrimEndShape(t);
    var r := TrimEnd(t);
    var i := |s| - |t|;
    var j := i + |r|;
    assert s[i..j] == t[..|r|];
    assert s[j..] == t[|r|..];
    if r != [] { assert r[0] == t[0]; }
  }

  /** A string trims to nothing exactly when it is blank. */
  lemma TrimEmptyIffBlank(s: string)
    ensures Trim(s) == [] <==> Blank(s)
  {
    var t := TrimStart(s);
    TrimStartShape(s);
    TrimEndShape(t);
    var k := |s| - |t|;
    if Trim(s) == [] {
      assert t[|TrimEnd(t)|..] == t;
      assert t == [];
      assert s[..k] == s;
    } else if Blank(s) {
      assert false;
    }
  }

  /** A string without white space at either end is left alone by `trim`. */
  lemma TrimOfTrimmed(s: string)
    requires s == [] || (!IsSpace(s[0]) && !IsSpace(s[|s| - 1]))
    ensures Trim(s) == s
  {
  }

  /** Surrounding white space does not change what `trim` returns. */
  lemma {:induction false} TrimIgnoresPadding(p: string, s: string, q: string)
    requires Blank(p) && Blank(q)
    ensures Trim(p + s + q) == Trim(s)
  {
    assert p + s + q == p + (s + q);
    TrimStartSkipsBlank(p, s + q);
    TrimStartAppend(s, q);
    if TrimStart(s + q) == TrimStart(s) + q {
      TrimEndDropsBlank(TrimStart(s), q);
    } else {
      TrimEndDropsBlank([], TrimStart(s + q));
      assert [] + TrimStart(s + q) == TrimStart(s + q);
    }
  }

  lemma {:induction false} TrimStartSkipsBlank(p: string, s: string)
    requires Blank(p)
    ensures TrimStart(p + s) == TrimStart(s)
    decreases |p|
  {
    if p != [] {
      assert (p + s)[1..] == p[1..] + s;
      assert Blank(p[1..]) by { assert forall i :: 0 <= i < |p| - 1 ==> p[1..][i] == p[i + 1]; }
      TrimStartSkipsBlank(p[1..], s);
    } else {
      assert p + s == s;
    }
  }

  /** `TrimStart` of `s + q` with `q` blank: either `s` keeps a non-space, or both vanish. */
  lemma {:induction false} TrimStartAppend(s: string, q: string)
    requires Blank(q)
    ensures TrimStart(s + q) == TrimStart(s) + q || (TrimStart(s) == [] && Blank(TrimStart(s + q)))
    decreases |s|
  {
    if s == [] {
      assert s + q == q;
      TrimStartShape(q);
    } else if IsSpace(s[0]) {
      assert (s + q)[1..] == s[1..] + q;
      TrimStartAppend(s[1..], q);
    }
  }

  lemma {:induction false} TrimEndDropsBlank(t: string, q: string)
    requires Blank(q)
    ensures TrimEnd(t + q) == TrimEnd(t)
    decreases |q|
  {
    if q != [] {
      var tq := t + q;
      assert tq[..|tq| - 1] == t + q[..|q| - 1];
      assert tq[|tq| - 1] == q[|q| - 1];
      TrimEndDropsBlank(t, q[..|q| - 1]);
    } else {
      assert t + q == t;
    }
  }

  /** `words.join(sep)`. */
  function Join(ws: seq<string>, sep: string): string
  {
    if |ws| == 0 then ""
    else if |ws| == 1 then ws[0]
    else ws[0] + sep + Join(ws[1..], sep)
  }

  /** Words joined by spaces form a blank string exactly when every word is blank. */
  lemma {:induction false} JoinBlankIffAllBlank(ws: seq<string>)
    ensures Blank(Join(ws, " ")) <==> forall k :: 0 <= k < |ws| ==> Blank(ws[k])
  {
    if |ws| > 1 {
      JoinBlankIffAllBlank(ws[1..]);
      var j := Join(ws[1..], " ");
      var whole := ws[0] + " " + j;
      assert whole == Join(ws, " ");
      if Blank(whole) {
        forall i | 0 <= i < |ws[0]| ensures IsSpace(ws[0][i]) { assert whole[i] == ws[0][i]; }
        forall i | 0 <= i < |j| ensures IsSpace(j[i]) { assert whole[|ws[0]| + 1 + i] == j[i]; }
        forall k | 0 <= k < |ws| ensures Blank(ws[k]) {
          if k > 0 { assert ws[k] == ws[1..][k - 1]; }
        }
      }
      if forall k :: 0 <= k < |ws| ==> Blank(ws[k]) {
        assert forall k :: 0 <= k < |ws[1..]| ==> Blank(ws[1..][k]) by {
          forall k | 0 <= k < |ws[1..]| ensures Blank(ws[1..][k]) { assert ws[1..][k] == ws[k + 1]; }
        }
        assert Blank(whole);
      }
    }
  }

  /** `s.split(/\s+/)`, with `cur` the word read so far. */
  function SplitFrom(s: string, cur: string): (r: seq<string>)
    decreases |s|
  {
    if s == [] then [cur]
    else if IsSpace(s[0]) then [cur] + SplitFrom(TrimStart(s[1..]), "")
    else SplitFrom(s[1..], cur + [s[0]])
  }

  /** `s.split(/\s+/)`: the pieces between maximal runs of white space. An empty string
      gives `[""]`, and leading or trailing white space gives an empty first or last piece. */
  function Split(s: string): seq<string>
  {
    SplitFrom(s, "")
  }

  /** The non-space characters of `s`, in order. */
  function NonSpace(s: string): string
  {
    if s == [] then [] else (if IsSpace(s[0]) then [] else [s[0]]) + NonSpace(s[1..])
  }

  /** The concatenation of the pieces. */
  function Concat(ws: seq<string>): string
  {
    if ws == [] then [] else ws[0] + Concat(ws[1..])
  }

  /** `split(/\s+/)` yields at least one piece, no piece holds white space, and the pieces
      hold exactly the non-space characters of the input, in order. */
  lemma {:induction false} SplitPieces(s: string, cur: string)
    requires NoSpace(cur)
    ensures |SplitFrom(s, cur)| >= 1
    ensures forall k :: 0 <= k < |SplitFrom(s, cur)| ==> NoSpace(SplitFrom(s, cur)[k])
    ensures Concat(SplitFrom(s, cur)) == cur + NonSpace(s)
    decreases |s|, 1
  {
    if s == [] {
      assert Concat([cur]) == cur + Concat([]);
    } else if IsSpace(s[0]) {
      SplitPiecesAtSpace(s, cur);
    } else {
      var c := cur + [s[0]];
      assert NoSpace(c) by {
        forall i | 0 <= i < |c| ensures !IsSpace(c[i]) {
          if i < |cur| { assert c[i] == cur[i]; }
        }
      }
      SplitPieces(s[1..], c);
      assert NonSpace(s) == [s[0]] + NonSpace(s[1..]);
      assert c + NonSpace(s[1..]) == cur + NonSpace(s);
    }
  }

  /** The step of `SplitPieces` at a white-space character: the current piece is closed
      and splitting resumes after the run of white space. */
  lemma {:induction false} SplitPiecesAtSpace(s: string, cur: string)
    requires NoSpace(cur) && s != [] && IsSpace(s[0])
    ensures |SplitFrom(s, cur)| >= 1
    ensures forall k :: 0 <= k < |SplitFrom(s, cur)| ==> NoSpace(SplitFrom(s, cur)[k])
    ensures Concat(SplitFrom(s, cur)) == cur + NonSpace(s)
    decreases |s|, 0
  {
    var u := s[1..];
    var t := TrimStart(u);
    TrimStartShape(u);
    SplitPieces(t, "");
    var rest := SplitFrom(t, "");
    var r := [cur] + rest;
    assert SplitFrom(s, cur) == r;
    assert r[1..] == rest;
    assert Concat(r) == cur + Concat(rest);
    var p := u[..|u| - |t|];
    assert u == p + t;
    NonSpaceSkipsBlank(p, t);
    assert NonSpace(s) == NonSpace(u);
    forall k | 0 <= k < |r| ensures NoSpace(r[k]) {
      if k > 0 { assert r[k] == rest[k - 1]; }
    }
  }

  lemma {:induction false} NonSpaceSkipsBlank(p: string, t: string)
    requires Blank(p)
    ensures NonSpace(p + t) == NonSpace(t)
    decreases |p|
  {
    if p != [] {
      assert (p + t)[1..] == p[1..] + t;
      assert Blank(p[1..]) by { assert forall i :: 0 <= i < |p| - 1 ==> p[1..][i] == p[i + 1]; }
      NonSpaceSkipsBlank(p[1..], t);
    } else {
      assert p + t == t;
    }
  }

  /** Every piece of `split(/\s+/)` is free of white space. */
  lemma SplitNoSpace(s: string)
    ensures |Split(s)| >= 1
    ensures forall k :: 0 <= k < |Split(s)| ==> NoSpace(Split(s)[k])
    ensures Concat(Split(s)) == NonSpace(s)
  {
    SplitPieces(s, "");
  }

  /** ASCII `toLowerCase` on one character; every other character is kept. */
  function LowerChar(c: char): char
  {
    if 'A' <= c <= 'Z' then (c as int + 32) as char else c
  }

  /** `s.toLowerCase()`, upper-case ASCII letters only. */
  function ToLower(s: string): (r: string)
    ensures |r| == |s|
    ensures forall i :: 0 <= i < |s| ==> r[i] == LowerChar(s[i])
  {
    seq(|s|, i requires 0 <= i < |s| => LowerChar(s[i]))
  }

  /** Lowering turns no character into white space and no white space into anything else. */
  lemma LowerKeepsSpace(c: char)
    ensures IsSpace(LowerChar(c)) <==> IsSpace(c)
  {
  }

  /** Lowering commutes with dropping leading white space. */
  lemma {:induction false} TrimStartLower(s: string)
    ensures TrimStart(ToLower(s)) == ToLower(TrimStart(s))
    decreases |s|
  {
    if s != [] {
      var l := ToLower(s);
      LowerKeepsSpace(s[0]);
      assert l[0] == LowerChar(s[0]);
      if IsSpace(s[0]) {
        assert l[1..] == ToLower(s[1..]);
        TrimStartLower(s[1..]);
      }
    }
  }

  /** Lowering commutes with dropping trailing white space. */
  lemma {:induction false} TrimEndLower(s: string)
    ensures TrimEnd(ToLower(s)) == ToLower(TrimEnd(s))
    decreases |s|
  {
    if s != [] {
      var l := ToLower(s);
      LowerKeepsSpace(s[|s| - 1]);
      assert l[|l| - 1] == LowerChar(s[|s| - 1]);
      if IsSpace(s[|s| - 1]) {
        assert l[..|l| - 1] == ToLower(s[..|s| - 1]);
        TrimEndLower(s[..|s| - 1]);
      }
    }
  }

  /** `toLowerCase` and `trim` commute. */
  lemma TrimLowerCommute(s: string)
    ensures Trim(ToLower(s)) == ToLower(Trim(s))
  {
    TrimStartLower(s);
    TrimEndLower(TrimStart(s));
  }

  /** `pat` occurs in `s` starting at index `k`. */
  predicate OccursAt(s: string, pat: string, k: nat) {
    k + |pat| <= |s| && s[k..k + |pat|] == pat
  }

  lemma OccursShift(s: string, pat: string)
    requires s != []
    ensures !OccursAt(s, pat, 0) <==> !(|pat| <= |s| && s[..|pat|] == pat)
    ensures forall k: nat :: k >= 1 ==> (OccursAt(s, pat, k) <==> OccursAt(s[1..], pat, k - 1))
  {
    forall k: nat | k >= 1 ensures OccursAt(s, pat, k) <==> OccursAt(s[1..], pat, k - 1) {
      if k + |pat| <= |s| {
        var here, there := s[k..k + |pat|], s[1..][k - 1..k - 1 + |pat|];
        forall i | 0 <= i < |pat| ensures here[i] == there[i] {
        }
        assert here == there;
      }
    }
    if |pat| <= |s| { assert s[0..|pat|] == s[..|pat|]; }
  }

  /** Where a pattern was found. */
  datatype Position = Missing | Found(at: nat)

  /** Position of the first occurrence of `pat` in `s`, if any. */
  function IndexOf(s: string, pat: string): (r: Position)
    ensures r.Found? ==> OccursAt(s, pat, r.at)
    ensures r.Found? ==> forall k: nat :: k < r.at ==> !OccursAt(s, pat, k)
    ensures r.Missing? ==> forall k: nat :: !OccursAt(s, pat, k)
    decreases |s|
  {
    if |s| < |pat| then Missing
    else if s[..|pat|] == pat then Found(0)
    else
      OccursShift(s, pat);
      match IndexOf(s[1..], pat)
      case Missing => Missing
      case Found(at) => Found(at + 1)
  }

  /** `s.replace(pat, "")` with a literal pattern: removes the first occurrence only. */
  function RemoveFirst(s: string, pat: string): (r: string)
    ensures IndexOf(s, pat).Found? ==> |r| + |pat| == |s|
    ensures IndexOf(s, pat).Missing? ==> r == s
  {
    match IndexOf(s, pat)
    case Missing => s
    case Found(at) => s[..at] + s[at + |pat|..]
  }

  /** The decimal digit for `d`. */
  function Digit(d: nat): char
    requires d < 10
  {
    ('0' as int + d) as char
  }

  /** `String(n)` for a natural number: its decimal digits. */
  function NatToString(n: nat): (r: string)
    ensures |r| >= 1
    ensures forall i :: 0 <= i < |r| ==> '0' <= r[i] <= '9'
    decreases n
  {
    if n < 10 then [Digit(n)] else NatToString(n / 10) + [Digit(n % 10)]
  }

  /** `String(n)` for an integer. */
  function IntToString(n: int): string
  {
    if n < 0 then "-" + NatToString(-n) else NatToString(n)
  }

  /** The value of a string of decimal digits. */
  function DigitsValue(s: string): nat
    requires forall i :: 0 <= i < |s| ==> '0' <= s[i] <= '9'
  {
    if s == [] then 0 else DigitsValue(s[..|s| - 1]) * 10 + (s[|s| - 1] as int - '0' as int)
  }

  /** The decimal rendering of a count reads back as that count. */
  lemma {:induction false} NatToStringRoundTrip(n: nat)
    ensures DigitsValue(NatToString(n)) == n
    decreases n
  {
    if n >= 10 {
      NatToStringRoundTrip(n / 10);
      var s := NatToString(n);
      assert s[..|s| - 1] == NatToString(n / 10);
      assert s[|s| - 1] as int - '0' as int == n % 10;
      assert n == (n / 10) * 10 + n % 10;
    }
  }
}
