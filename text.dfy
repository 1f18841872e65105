/** String operations of the Python and Go standard libraries that the sources use,
    over `string` (a sequence of Unicode scalar values). Case mapping is ASCII only. */
module Text {
  import opened Seqs
  import opened Wrappers

  predicate IsLowerLetter(c: char) { 'a' <= c <= 'z' }

  predicate IsUpperLetter(c: char) { 'A' <= c <= 'Z' }

  /** Python's str.isspace(), which is also what `\s` and str.strip() use: Go's set plus
      the four information separators U+001C..U+001F. */
  predicate IsPySpace(c: char) {
    IsGoSpace(c) || '\U{1c}' <= c <= '\U{1f}'
  }

  /** Go's unicode.IsSpace, used by strings.TrimSpace: the Unicode White_Space characters. */
  predicate IsGoSpace(c: char) {
    c == ' ' || '\t' <= c <= '\r' || c == '\U{85}' || c == '\U{a0}' || c == '\U{1680}'
    || '\U{2000}' <= c <= '\U{200a}' || c == '\U{2028}' || c == '\U{2029}' || c == '\U{202f}'
    || c == '\U{205f}' || c == '\U{3000}'
  }

  function LowerChar(c: char): char {
    if IsUpperLetter(c) then (c as int + 32) as char else c
  }

  function UpperChar(c: char): char {
    if IsLowerLetter(c) then (c as int - 32) as char else c
  }

  /** str.lower() / strings.ToLower, restricted to ASCII letters. */
  function Lower(s: string): string {
    seq(|s|, i requires 0 <= i < |s| => LowerChar(s[i]))
  }

  function Upper(s: string): string {
    seq(|s|, i requires 0 <= i < |s| => UpperChar(s[i]))
  }

  lemma LowerOfUpper(s: string)
    ensures Lower(Upper(s)) == Lower(s)
  {
  }

  /** Drops the leading characters that satisfy ws. */
  function LStripBy(s: string, ws: char -> bool): (r: string)
    ensures |r| <= |s| && r == s[|s| - |r|..]
    ensures forall i :: 0 <= i < |s| - |r| ==> ws(s[i])
    ensures r == [] || !ws(r[0])
  {
    if |s| > 0 && ws(s[0]) then LStripBy(s[1..], ws) else s
  }

  /** Drops the trailing characters that satisfy ws. */
  function RStripBy(s: string, ws: char -> bool): (r: string)
    ensures |r| <= |s| && r == s[..|r|]
    ensures forall i :: |r| <= i < |s| ==> ws(s[i])
    ensures r == [] || !ws(r[|r| - 1])
  {
    if |s| > 0 && ws(s[|s| - 1]) then RStripBy(s[..|s| - 1], ws) else s
  }

  function StripBy(s: string, ws: char -> bool): string {
    RStripBy(LStripBy(s, ws), ws)
  }

  lemma StripByInfix(s: string, ws: char -> bool)
    ensures var a := |s| - |LStripBy(s, ws)|;
      a + |StripBy(s, ws)| <= |s| && StripBy(s, ws) == s[a..a + |StripBy(s, ws)|]
  {
  }

  /** The characters a stripped string keeps, where it keeps them. */
  lemma StripByIndices(s: string, ws: char -> bool)
    ensures var a := |s| - |LStripBy(s, ws)|;
      a + |StripBy(s, ws)| <= |s| && forall j :: 0 <= j < |StripBy(s, ws)| ==> StripBy(s, ws)[j] == s[a + j]
  {
    StripByInfix(s, ws);
  }

  /** A property of every slice of s holds of s stripped. */
  lemma StripByKeeps(s: string, ws: char -> bool, P: string -> bool)
    requires forall a, b | 0 <= a <= b <= |s| :: P(s[a..b])
    ensures P(StripBy(s, ws))
  {
    StripByInfix(s, ws);
    var a := |s| - |LStripBy(s, ws)|;
    assert P(s[a..a + |StripBy(s, ws)|]);
  }

  /** Python's str.strip() with no argument. */
  function Strip(s: string): string { StripBy(s, IsPySpace) }

  /** Go's strings.TrimSpace. */
  function TrimSpace(s: string): string { StripBy(s, IsGoSpace) }

  /** Go's strings.Trim(s, cutset). */
  function Trim(s: string, cutset: string): string { StripBy(s, InCutset(cutset)) }

  function InCutset(cutset: string): char -> bool {
    c => c in cutset
  }

  /** A string with no leading or trailing character that satisfies ws is its own strip. */
  lemma StripByFixed(s: string, ws: char -> bool)
    requires s == [] || (!ws(s[0]) && !ws(s[|s| - 1]))
    ensures StripBy(s, ws) == s
  {
  }

  /** Python's str.replace(pat, rep) and Go's strings.Replace(s, pat, rep, -1):
      every leftmost non-overlapping occurrence of pat is replaced by rep. */
  function Replace(s: string, pat: string, rep: string): string
    requires |pat| > 0
    decreases |s|
  {
    if |s| < |pat| then s
    else if s[..|pat|] == pat then rep + Replace(s[|pat|..], pat, rep)
    else [s[0]] + Replace(s[1..], pat, rep)
  }

  /** Deleting occurrences only removes characters. */
  lemma {:induction false} DeleteIsSubsequence(s: string, pat: string)
    requires |pat| > 0
    ensures IsSubsequence(Replace(s, pat, ""), s)
    decreases |s|
  {
    if |s| < |pat| {
      SubsequenceRefl(s);
    } else if s[..|pat|] == pat {
      DeleteIsSubsequence(s[|pat|..], pat);
      assert s == s[..|pat|] + s[|pat|..];
      assert Replace(s, pat, "") == Replace(s[|pat|..], pat, "");
      SubsequenceOfSuffix(Replace(s[|pat|..], pat, ""), s[..|pat|], s[|pat|..]);
    } else {
      DeleteIsSubsequence(s[1..], pat);
      assert s == [s[0]] + s[1..];
      assert IsSubsequence([s[0]], [s[0]]);
      SubsequenceConcat([s[0]], [s[0]], Replace(s[1..], pat, ""), s[1..]);
    }
  }

  /** Deleting a one-character pattern deletes exactly that character. */
  lemma {:induction false} DeleteCharMembers(s: string, c: char)
    ensures forall x :: x in Replace(s, [c], "") <==> x in s && x != c
    decreases |s|
  {
    if |s| >= 1 {
      DeleteCharMembers(s[1..], c);
      assert s == [s[0]] + s[1..];
    }
  }

  /** Python's str.split(sep) for a one-character separator. */
  function Split(s: string, sep: char): (r: seq<string>)
    ensures |r| >= 1
    decreases |s|
  {
    if |s| == 0 then [""]
    else if s[0] == sep then [""] + Split(s[1..], sep)
    else
      var rest := Split(s[1..], sep);
      [[s[0]] + rest[0]] + rest[1..]
  }

  /** Python's sep.join(ws). */
  function Join(ws: seq<string>, sep: char): string {
    if |ws| == 0 then ""
    else if |ws| == 1 then ws[0]
    else ws[0] + [sep] + Join(ws[1..], sep)
  }

  lemma {:induction false} SplitPiecesLackSeparator(s: string, sep: char)
    ensures forall w :: w in Split(s, sep) ==> sep !in w
    ensures sep !in s ==> Split(s, sep) == [s]
    decreases |s|
  {
    if |s| > 0 {
      SplitPiecesLackSeparator(s[1..], sep);
      var rest := Split(s[1..], sep);
      if s[0] != sep {
        assert forall w :: w in rest[1..] ==> w in rest;
        assert rest[0] in rest;
        if sep !in s {
          assert sep !in s[1..] by { assert forall x :: x in s[1..] ==> x in s; }
          assert [s[0]] + s[1..] == s;
        }
      }
    }
  }

  /** Joining the pieces of a split gives the string back. */
  lemma {:induction false} JoinSplit(s: string, sep: char)
    ensures Join(Split(s, sep), sep) == s
    decreases |s|
  {
    if |s| > 0 {
      JoinSplit(s[1..], sep);
      var rest := Split(s[1..], sep);
      if s[0] != sep && |rest| > 1 {
        assert [[s[0]] + rest[0]] + rest[1..] == [[s[0]] + rest[0]] + [rest[1]] + rest[2..];
      }
    }
  }

  /** Joining pieces whose first is non-empty starts with that piece's first character. */
  lemma JoinFirstChar(ws: seq<string>, sep: char)
    requires |ws| >= 1 && |ws[0]| > 0
    ensures Join(ws, sep) == [ws[0][0]] + Join([ws[0][1..]] + ws[1..], sep)
  {
    var ws' := [ws[0][1..]] + ws[1..];
    assert ws'[0] == ws[0][1..] && ws'[1..] == ws[1..];
  }

  /** Dropping the first character of the first piece keeps the pieces separator-free. */
  lemma DropFirstCharNoSeparator(ws: seq<string>, sep: char)
    requires |ws| >= 1 && |ws[0]| > 0
    requires forall w :: w in ws ==> sep !in w
    ensures forall w :: w in [ws[0][1..]] + ws[1..] ==> sep !in w
  {
    var ws' := [ws[0][1..]] + ws[1..];
    forall w | w in ws' ensures sep !in w {
      if w == ws[0][1..] { assert forall x :: x in w ==> x in ws[0]; assert ws[0] in ws; } else { assert w in ws; }
    }
  }

  /** Splitting a join gives the pieces back when no piece holds the separator. */
  lemma {:induction false} SplitJoin(ws: seq<string>, sep: char)
    requires |ws| >= 1
    requires forall w :: w in ws ==> sep !in w
    ensures Split(Join(ws, sep), sep) == ws
    decreases |ws|, |ws[0]|
  {
    if |ws[0]| > 0 {
      var ws' := [ws[0][1..]] + ws[1..];
      DropFirstCharNoSeparator(ws, sep);
      SplitJoin(ws', sep);
      JoinFirstChar(ws, sep);
      assert ws[0] in ws;
      assert [ws[0][0]] + ws'[0] == ws[0];
      assert ws == [ws[0]] + ws'[1..];
    } else if |ws| > 1 {
      SplitJoin(ws[1..], sep);
      assert Join(ws, sep) == [sep] + Join(ws[1..], sep);
    }
  }

  /** The first piece is a subsequence of the join. */
  lemma JoinHeadSubsequence(ws: seq<string>, sep: char)
    requires ws != []
    ensures IsSubsequence(ws[0], Join(ws, sep))
  {
    SubsequenceRefl(ws[0]);
    if |ws| > 1 {
      SubsequenceConcat(ws[0], ws[0], [], [sep] + Join(ws[1..], sep));
      assert ws[0] + [] == ws[0];
      assert Join(ws, sep) == ws[0] + ([sep] + Join(ws[1..], sep));
    }
  }

  /** Keeping the first piece and a subsequence of the rest. */
  lemma JoinKeepHead(ws': seq<string>, ws: seq<string>, sep: char)
    requires |ws'| > 1 && |ws| > 1 && ws'[0] == ws[0]
    requires IsSubsequence(Join(ws'[1..], sep), Join(ws[1..], sep))
    ensures IsSubsequence(Join(ws', sep), Join(ws, sep))
  {
    SubsequenceRefl(ws[0] + [sep]);
    SubsequenceConcat(ws[0] + [sep], ws[0] + [sep], Join(ws'[1..], sep), Join(ws[1..], sep));
  }

  /** Dropping the first piece. */
  lemma JoinDropHead(a: string, ws: seq<string>, sep: char)
    requires |ws| > 1 && IsSubsequence(a, Join(ws[1..], sep))
    ensures IsSubsequence(a, Join(ws, sep))
  {
    SubsequenceOfSuffix(a, ws[0] + [sep], Join(ws[1..], sep));
  }

  /** Every character of a join of a subsequence of pieces comes, in order, from the join
      of all pieces. */
  lemma {:induction false} JoinSubsequence(ws': seq<string>, ws: seq<string>, sep: char)
    requires IsSubsequence(ws', ws)
    ensures IsSubsequence(Join(ws', sep), Join(ws, sep))
    decreases |ws|
  {
    if ws' != [] {
      if ws'[0] == ws[0] {
        if |ws'| == 1 {
          JoinHeadSubsequence(ws, sep);
        } else {
          assert ws'[1..] != [];
          JoinSubsequence(ws'[1..], ws[1..], sep);
          JoinKeepHead(ws', ws, sep);
        }
      } else {
        assert ws[1..] != [];
        JoinSubsequence(ws', ws[1..], sep);
        JoinDropHead(Join(ws', sep), ws, sep);
      }
    }
  }


  /** Keeping the elements that satisfy p. */
  function Filter<T(!new)>(s: seq<T>, p: T -> bool): (r: seq<T>)
    ensures |r| <= |s|
    ensures forall x :: x in r <==> x in s && p(x)
  {
    if s == [] then [] else (if p(s[0]) then [s[0]] else []) + Filter(s[1..], p)
  }

  lemma {:induction false} FilterSubsequence<T(!new)>(s: seq<T>, p: T -> bool)
    ensures IsSubsequence(Filter(s, p), s)
  {
    if s != [] {
      FilterSubsequence(s[1..], p);
      if p(s[0]) {
        assert Filter(s, p)[1..] == Filter(s[1..], p);
      } else {
        assert Filter(s, p) == Filter(s[1..], p);
        SubsequenceCons(Filter(s, p), s);
      }
    }
  }

  lemma {:induction false} FilterAppend<T(!new)>(s: seq<T>, x: T, p: T -> bool)
    ensures Filter(s + [x], p) == Filter(s, p) + (if p(x) then [x] else [])
  {
    if s != [] {
      var h := if p(s[0]) then [s[0]] else [];
      var t := if p(x) then [x] else [];
      assert (s + [x])[0] == s[0] && (s + [x])[1..] == s[1..] + [x];
      assert Filter(s + [x], p) == h + Filter(s[1..] + [x], p);
      FilterAppend(s[1..], x, p);
      ConcatAssoc(h, Filter(s[1..], p), t);
    }
  }

  /** Filtering by a predicate that no element satisfies leaves nothing. */
  lemma {:induction false} FilterNoneKept<T(!new)>(s: seq<T>, p: T -> bool)
    requires forall i :: 0 <= i < |s| ==> !p(s[i])
    ensures Filter(s, p) == []
  {
    if s != [] {
      FilterNoneKept(s[1..], p);
    }
  }

  /** Filtering by a predicate that every element satisfies changes nothing. */
  lemma {:induction false} FilterAllKept<T(!new)>(s: seq<T>, p: T -> bool)
    requires forall i :: 0 <= i < |s| ==> p(s[i])
    ensures Filter(s, p) == s
  {
    if s != [] {
      FilterAllKept(s[1..], p);
    }
  }

  /** Filtering twice is filtering by the conjunction. */
  lemma {:induction false} FilterFilter<T(!new)>(s: seq<T>, p: T -> bool, q: T -> bool, r: T -> bool)
    requires forall x :: r(x) == (p(x) && q(x))
    ensures Filter(Filter(s, p), q) == Filter(s, r)
  {
    if s != [] {
      FilterFilter(s[1..], p, q, r);
      var fp := Filter(s, p);
      if p(s[0]) {
        assert fp == [s[0]] + Filter(s[1..], p);
        assert fp[0] == s[0] && fp[1..] == Filter(s[1..], p);
        assert Filter(fp, q) == (if q(s[0]) then [s[0]] else []) + Filter(fp[1..], q);
      } else {
        assert fp == Filter(s[1..], p);
      }
    }
  }

  /** Splitting at a separator splits both sides independently. */
  lemma {:induction false} SplitConcat(a: string, b: string, sep: char)
    ensures Split(a + [sep] + b, sep) == Split(a, sep) + Split(b, sep)
    decreases |a|
  {
    if a == [] {
      assert a + [sep] + b == [sep] + b;
    } else {
      var t := a + [sep] + b;
      assert t[0] == a[0] && t[1..] == a[1..] + [sep] + b;
      SplitConcat(a[1..], b, sep);
      if a[0] != sep {
        var rest := Split(t[1..], sep);
        var pa := Split(a[1..], sep);
        assert rest == pa + Split(b, sep);
        assert rest[0] == pa[0] && rest[1..] == pa[1..] + Split(b, sep);
        assert Split(t, sep) == [[a[0]] + rest[0]] + rest[1..];
        assert Split(a, sep) == [[a[0]] + pa[0]] + pa[1..];
      }
    }
  }

  /** Replacing a character removes it and brings in only the replacement's characters. */
  lemma {:induction false} ReplaceCharMembers(s: string, c: char, rep: string)
    ensures forall x :: x in Replace(s, [c], rep) ==> (x in s && x != c) || x in rep
    decreases |s|
  {
    if |s| >= 1 {
      ReplaceCharMembers(s[1..], c, rep);
      assert s == [s[0]] + s[1..];
    }
  }

  /** No character of a piece is lost by joining. */
  lemma {:induction false} JoinMembers(ws: seq<string>, sep: char)
    ensures forall w, c :: w in ws && c in w ==> c in Join(ws, sep)
  {
    if |ws| > 1 {
      JoinMembers(ws[1..], sep);
      assert Join(ws, sep) == ws[0] + ([sep] + Join(ws[1..], sep));
      forall w, c | w in ws && c in w ensures c in Join(ws, sep) {
        if w != ws[0] {
          assert w in ws[1..];
        }
      }
    }
  }

  /** Every character of a piece of a split comes from the split string. */
  lemma SplitMembers(s: string, sep: char)
    ensures forall w, c :: w in Split(s, sep) && c in w ==> c in s
  {
    JoinSplit(s, sep);
    JoinMembers(Split(s, sep), sep);
  }

  /** A string that neither starts nor ends with the separator and never holds it twice in
      a row splits into non-empty pieces (the first piece is empty exactly when the string
      starts with the separator). */
  lemma {:induction false} SplitPiecesNonEmpty(s: string, sep: char)
    requires s != [] && s[|s| - 1] != sep
    requires forall i :: 0 <= i < |s| - 1 ==> !(s[i] == sep && s[i + 1] == sep)
    ensures forall k :: 1 <= k < |Split(s, sep)| ==> Split(s, sep)[k] != ""
    ensures Split(s, sep)[0] == "" <==> s[0] == sep
    decreases |s|
  {
    if |s| > 1 {
      assert s[1..][|s| - 2] == s[|s| - 1];
      SplitPiecesNonEmpty(s[1..], sep);
    }
  }

  /** A stripped string neither starts nor ends with a stripped character. */
  lemma StripByEnds(s: string, ws: char -> bool)
    ensures var r := StripBy(s, ws); r == [] || (!ws(r[0]) && !ws(r[|r| - 1]))
  {
    var l := LStripBy(s, ws);
    var r := RStripBy(l, ws);
    if r != [] {
      assert r[0] == l[0];
    }
  }

  function DigitChar(d: nat): char
    requires d < 10
  {
    ('0' as int + d) as char
  }

  /** Python's "{}".format(n) for a natural number: its decimal digits. */
  function NatToString(n: nat): string
    decreases n
  {
    if n < 10 then [DigitChar(n)] else NatToString(n / 10) + [DigitChar(n % 10)]
  }

  /** Python's "{}".format(i) for an integer. */
  function IntToString(i: int): string {
    if i < 0 then "-" + NatToString(-i) else NatToString(i)
  }

  predicate IsDigit(c: char) { '0' <= c <= '9' }

  function ParseDigits(s: string): Option<nat> {
    if s == [] then None
    else if !IsDigit(s[|s| - 1]) then None
    else
      var d := (s[|s| - 1] as int - '0' as int);
      if |s| == 1 then Some(d)
      else match ParseDigits(s[..|s| - 1])
        case None => None
        case Some(v) => Some(10 * v + d)
  }

  /** Reading a decimal integer, the reverse of IntToString. */
  function ParseInt(s: string): Option<int> {
    if |s| > 0 && s[0] == '-' then
      match ParseDigits(s[1..])
      case None => None
      case Some(v) => Some(0 - v)
    else match ParseDigits(s)
      case None => None
      case Some(v) => Some(v as int)
  }

  lemma {:induction false} ParseNatToString(n: nat)
    ensures ParseDigits(NatToString(n)) == Some(n)
    ensures |NatToString(n)| > 0 && NatToString(n)[0] != '-'
    decreases n
  {
    if n >= 10 {
      ParseNatToString(n / 10);
      var s := NatToString(n);
      assert s[..|s| - 1] == NatToString(n / 10);
    }
  }

  lemma IntToStringRoundTrip(i: int)
    ensures ParseInt(IntToString(i)) == Some(i)
  {
    var s := IntToString(i);
    if i < 0 {
      ParseNatToString(-i);
      assert s == "-" + NatToString(-i);
      assert s[1..] == NatToString(-i);
      assert ParseDigits(s[1..]) == Some(-i);
    } else {
      ParseNatToString(i);
      assert s == NatToString(i);
      assert ParseDigits(s) == Some(i);
    }
  }

  /** Python's a <= b on str: lexicographic by code point, a proper prefix first. */
  predicate StrLe(a: string, b: string)
    decreases |a|
  {
    a == [] || (b != [] && (a[0] < b[0] || (a[0] == b[0] && StrLe(a[1..], b[1..]))))
  }

  lemma {:induction false} StrLeTotal(a: string, b: string)
    ensures StrLe(a, b) || StrLe(b, a)
    decreases |a|
  {
    if a != [] && b != [] && a[0] == b[0] {
      StrLeTotal(a[1..], b[1..]);
    }
  }

  lemma {:induction false} StrLeTrans(a: string, b: string, c: string)
    requires StrLe(a, b) && StrLe(b, c)
    ensures StrLe(a, c)
    decreases |a|
  {
    if a != [] && a[0] == b[0] && b[0] == c[0] {
      StrLeTrans(a[1..], b[1..], c[1..]);
    }
  }
}
