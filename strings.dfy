/** The few Python string operations the modelled code relies on, with their meaning stated
    as contracts: `str.startswith`, `str.replace(c, "")`, `str.split()` with no separator,
    `str.isdigit`, `int` on a digit string, and `str.split(c)[0]` / `str.split(c)[-1]`. */
module Strings {

  predicate StartsWith(s: string, prefix: string) {
    |prefix| <= |s| && s[..|prefix|] == prefix
  }

  /** The characters for which Python's `str.isspace()` holds; `str.split()` cuts at runs of them. */
  predicate IsSpace(c: char) {
    c == ' ' || ('\t' <= c <= '\r') || ('\U{1C}' <= c <= '\U{1F}') || c == '\U{85}' || c == '\U{A0}'
    || c == '\U{1680}' || ('\U{2000}' <= c <= '\U{200A}') || c == '\U{2028}' || c == '\U{2029}'
    || c == '\U{202F}' || c == '\U{205F}' || c == '\U{3000}'
  }

  predicate NoSpace(w: string) {
    forall i :: 0 <= i < |w| ==> !IsSpace(w[i])
  }

  /** A word, as `str.split()` returns them: non-empty and free of white space. */
  predicate IsWord(w: string) {
    w != [] && NoSpace(w)
  }

  /** `s.replace(c, "")` */
  function Remove(s: string, c: char): string
  {
    if s == [] then [] else (if s[0] == c then [] else [s[0]]) + Remove(s[1..], c)
  }

  /** Exactly the occurrences of `c` are deleted: every other character keeps its multiplicity. */
  lemma {:induction false} RemoveMultiset(s: string, c: char)
    ensures multiset(Remove(s, c)) == multiset(s)[c := 0]
    ensures c !in Remove(s, c)
  {
    if s != [] {
      RemoveMultiset(s[1..], c);
      assert s == [s[0]] + s[1..];
    }
  }

  lemma {:induction false} RemoveAppend(a: string, b: string, c: char)
    ensures Remove(a + b, c) == Remove(a, c) + Remove(b, c)
  {
    if a == [] {
      assert a + b == b;
    } else {
      assert (a + b)[1..] == a[1..] + b;
      RemoveAppend(a[1..], b, c);
    }
  }

  lemma {:induction false} RemoveAbsent(s: string, c: char)
    requires c !in s
    ensures Remove(s, c) == s
  {
    if s != [] {
      RemoveAbsent(s[1..], c);
    }
  }

  /** The longest prefix of `s` without white space. */
  function LeadingWord(s: string): (w: string)
    ensures |w| <= |s| && w == s[..|w|]
    ensures NoSpace(w)
    ensures |w| < |s| ==> IsSpace(s[|w|])
  {
    if s == [] || IsSpace(s[0]) then [] else [s[0]] + LeadingWord(s[1..])
  }

  /** `s.split()`: the maximal runs of non-white-space characters, in order. */
  function Split(s: string): (ws: seq<string>)
    ensures forall i :: 0 <= i < |ws| ==> IsWord(ws[i])
    decreases |s|
  {
    if s == [] then []
    else if IsSpace(s[0]) then Split(s[1..])
    else
      var w := LeadingWord(s);
      [w] + Split(s[|w|..])
  }

  lemma {:induction false} LeadingWordAppend(a: string, b: string)
    requires b == [] || IsSpace(b[0])
    ensures LeadingWord(a + b) == LeadingWord(a)
  {
    if a == [] {
      assert a + b == b;
    } else if !IsSpace(a[0]) {
      assert (a + b)[1..] == a[1..] + b;
      LeadingWordAppend(a[1..], b);
    }
  }

  /** One white-space character separates the words on its left from those on its right. */
  lemma {:induction false} SplitAroundSpace(a: string, c: char, b: string)
    requires IsSpace(c)
    ensures Split(a + ([c] + b)) == Split(a) + Split(b)
    decreases |a|
  {
    var s := a + ([c] + b);
    if a == [] {
      assert s == [c] + b;
      assert s[1..] == b;
    } else if IsSpace(a[0]) {
      assert s[1..] == a[1..] + ([c] + b);
      SplitAroundSpace(a[1..], c, b);
    } else {
      LeadingWordAppend(a, [c] + b);
      var w := LeadingWord(a);
      assert |w| >= 1;
      assert s[|w|..] == a[|w|..] + ([c] + b);
      SplitAroundSpace(a[|w|..], c, b);
    }
  }

  lemma {:induction false} LeadingWordOfNoSpace(w: string)
    requires NoSpace(w)
    ensures LeadingWord(w) == w
  {
    if w != [] {
      LeadingWordOfNoSpace(w[1..]);
    }
  }

  lemma SplitWord(w: string)
    requires IsWord(w)
    ensures Split(w) == [w]
  {
    LeadingWordOfNoSpace(w);
    assert w[|w|..] == [];
  }

  /** `sep.join(ws)` */
  function Join(ws: seq<string>, sep: string): string {
    if ws == [] then []
    else if |ws| == 1 then ws[0]
    else ws[0] + (sep + Join(ws[1..], sep))
  }

  /** A word followed by a space and more text splits into the word and the rest's words. */
  lemma SplitWordThen(w: string, t: string)
    requires IsWord(w)
    ensures Split(w + ([' '] + t)) == [w] + Split(t)
  {
    SplitWord(w);
    SplitAroundSpace(w, ' ', t);
  }

  /** Text followed by a space and a word splits into the text's words and the word. */
  lemma SplitThenWord(t: string, w: string)
    requires IsWord(w)
    ensures Split(t + ([' '] + w)) == Split(t) + [w]
  {
    SplitWord(w);
    SplitAroundSpace(t, ' ', w);
  }

  lemma JoinFour(a: string, b: string, c: string, d: string, sep: string)
    ensures Join([a, b, c, d], sep) == a + (sep + (b + (sep + (c + (sep + d)))))
  {
    assert [a, b, c, d][1..] == [b, c, d];
    assert [b, c, d][1..] == [c, d];
    assert [c, d][1..] == [d];
    assert Join([d], sep) == d;
    assert Join([c, d], sep) == c + (sep + d);
    assert Join([b, c, d], sep) == b + (sep + (c + (sep + d)));
  }

  /** Words joined by single blanks split back into the same words. */
  lemma {:induction false} SplitJoin(ws: seq<string>)
    requires forall i :: 0 <= i < |ws| ==> IsWord(ws[i])
    ensures Split(Join(ws, " ")) == ws
  {
    if ws == [] {
    } else if |ws| == 1 {
      SplitWord(ws[0]);
    } else {
      SplitJoin(ws[1..]);
      SplitWord(ws[0]);
      SplitAroundSpace(ws[0], ' ', Join(ws[1..], " "));
      assert ws == [ws[0]] + ws[1..];
    }
  }

  predicate IsDigit(c: char) {
    '0' <= c <= '9'
  }

  /** `s.isdigit()` for a string of ASCII characters. */
  predicate IsDigitToken(s: string) {
    |s| > 0 && forall i :: 0 <= i < |s| ==> IsDigit(s[i])
  }

  function DigitChar(d: nat): (c: char)
    requires d < 10
    ensures IsDigit(c)
  {
    ('0' as int + d) as char
  }

  function DigitValue(c: char): (d: nat)
    requires IsDigit(c)
    ensures d < 10
  {
    c as int - '0' as int
  }

  /** `int(s)` for a string of decimal digits. */
  function ParseNat(s: string): nat
    requires forall i :: 0 <= i < |s| ==> IsDigit(s[i])
  {
    if s == [] then 0
    else 10 * ParseNat(s[..|s| - 1]) + DigitValue(s[|s| - 1])
  }

  /** `str(n)` for a natural number. */
  function NatToString(n: nat): (s: string)
    ensures IsDigitToken(s)
  {
    if n < 10 then [DigitChar(n)] else NatToString(n / 10) + [DigitChar(n % 10)]
  }

  lemma {:induction false} ParseNatToString(n: nat)
    ensures ParseNat(NatToString(n)) == n
  {
    var s := NatToString(n);
    if n >= 10 {
      ParseNatToString(n / 10);
      assert s[..|s| - 1] == NatToString(n / 10);
    } else {
      assert s[..|s| - 1] == [];
    }
  }

  /** `s.split(c)[0]`: the text before the first `c`, or all of `s`. */
  function BeforeFirst(s: string, c: char): (r: string)
    ensures |r| <= |s| && r == s[..|r|]
    ensures c !in r
    ensures |r| < |s| ==> s[|r|] == c
  {
    if s == [] || s[0] == c then [] else [s[0]] + BeforeFirst(s[1..], c)
  }

  /** Where the text after the last `c` of `s` starts: just past that `c`, or 0 without one. */
  function AfterLastIndex(s: string, c: char): (k: nat)
    ensures k <= |s|
    ensures forall i :: k <= i < |s| ==> s[i] != c
    ensures 0 < k ==> s[k - 1] == c
  {
    if s == [] then 0 else if s[|s| - 1] == c then |s| else AfterLastIndex(s[..|s| - 1], c)
  }

  /** `s.split(c)[-1]`: the text after the last `c`, or all of `s`. */
  function AfterLast(s: string, c: char): (r: string)
    ensures |r| <= |s| && r == s[|s| - |r|..]
    ensures c !in r
    ensures |r| < |s| ==> s[|s| - |r| - 1] == c
  {
    s[AfterLastIndex(s, c)..]
  }

  /** The text before the first `c` of `stem + [c] + rest` is `stem` when `stem` has no `c`. */
  lemma {:induction false} BeforeFirstStem(stem: string, c: char, rest: string)
    requires c !in stem
    ensures BeforeFirst(stem + [c] + rest, c) == stem
  {
    if stem != [] {
      assert (stem + [c] + rest)[1..] == stem[1..] + [c] + rest;
      BeforeFirstStem(stem[1..], c, rest);
    }
  }

  /** The text after the last `c` of `stem + [c] + rest` is `rest` when `rest` has no `c`. */
  lemma {:induction false} AfterLastRest(stem: string, c: char, rest: string)
    requires c !in rest
    ensures AfterLast(stem + [c] + rest, c) == rest
  {
    var s := stem + [c] + rest;
    if rest != [] {
      var n := |rest| - 1;
      assert s[..|s| - 1] == stem + [c] + rest[..n];
      AfterLastRest(stem, c, rest[..n]);
      assert rest == rest[..n] + [rest[n]];
    }
  }

  /** `os.path.join(d, f)` for a relative `f`: `f` under the directory `d`, or `f` alone when `d`
      is empty. */
  function PathJoin(d: string, f: string): (p: string)
    ensures d == "" ==> p == f
    ensures |d| <= |p| && p[..|d|] == d
    ensures |f| <= |p| && p[|p| - |f|..] == f
  {
    if d == "" || d[|d| - 1] == '/' then d + f else d + "/" + f
  }

  /** A parameter that is either one string or a list of strings. */
  datatype StrOrList = Str(s: string) | List(items: seq<string>)
  {
    /** `[x] if isinstance(x, str) else x` */
    function Items(): seq<string> {
      match this
      case Str(s) => [s]
      case List(items) => items
    }
  }
}
