/**
 * The Python string operations that the order logic relies on, over `string`
 * (`seq<char>`): whitespace, case mapping, `strip`, `in`, `split`, `splitlines`,
 * `str(int)` and the ordering that `<` and `sorted` use on strings.
 */
module Text {

  /** `str.isspace()` for one character. */
  predicate IsSpace(c: char)
  {
    c == ' ' || ('\t' <= c <= '\r') || ('\U{1C}' <= c <= '\U{1F}')
    || c == '\U{85}' || c == '\U{A0}' || c == '\U{1680}'
    || ('\U{2000}' <= c <= '\U{200A}') || c == '\U{2028}' || c == '\U{2029}'
    || c == '\U{202F}' || c == '\U{205F}' || c == '\U{3000}'
  }

  /**
   * Lower-casing on one character, for ASCII letters and the Turkish
   * capitals Ç, Ö, Ü, Ğ, Ş. The dotted capital İ is left alone (Python turns it into two
   * characters, "i" and a combining dot).
   */
  function LowerChar(c: char): (d: char)
    ensures IsSpace(d) == IsSpace(c)
  {
    if 'A' <= c <= 'Z' then (c as int + 32) as char
    else if c == '\U{C7}' then '\U{E7}'
    else if c == '\U{D6}' then '\U{F6}'
    else if c == '\U{DC}' then '\U{FC}'
    else if c == '\U{11E}' then '\U{11F}'
    else if c == '\U{15E}' then '\U{15F}'
    else c
  }

  /**
   * Upper-casing on one character, for the letters that occur here: ASCII,
   * the Turkish ç, ö, ü, ğ, ş and the dotless ı (to I). Python's `str.upper()`
   * maps more letters than these.
   */
  function UpperChar(c: char): (d: char)
    ensures IsSpace(d) == IsSpace(c)
  {
    if 'a' <= c <= 'z' then (c as int - 32) as char
    else if c == '\U{E7}' then '\U{C7}'
    else if c == '\U{F6}' then '\U{D6}'
    else if c == '\U{FC}' then '\U{DC}'
    else if c == '\U{11F}' then '\U{11E}'
    else if c == '\U{15F}' then '\U{15E}'
    else if c == '\U{131}' then 'I'
    else c
  }

  function Lower(s: string): (r: string)
    ensures |r| == |s|
  {
    seq(|s|, i requires 0 <= i < |s| => LowerChar(s[i]))
  }

  function Upper(s: string): (r: string)
    ensures |r| == |s|
  {
    seq(|s|, i requires 0 <= i < |s| => UpperChar(s[i]))
  }

  /** A string that case mapping leaves alone character by character is its own lower case. */
  lemma LowerFixed(s: string)
    requires forall i :: 0 <= i < |s| ==> LowerChar(s[i]) == s[i]
    ensures Lower(s) == s
  {
  }

  lemma LowerIdempotent(s: string)
    ensures Lower(Lower(s)) == Lower(s)
  {
  }

  // ---------------------------------------------------------------- strip

  /** No whitespace at either end: what `str.strip()` returns. */
  predicate IsStripped(s: string)
  {
    s == "" || (!IsSpace(s[0]) && !IsSpace(s[|s| - 1]))
  }

  function TrimStart(s: string): (r: string)
    ensures r == "" || !IsSpace(r[0])
    ensures |r| <= |s| && r == s[|s| - |r|..]
    decreases |s|
  {
    if |s| > 0 && IsSpace(s[0]) then TrimStart(s[1..]) else s
  }

  function TrimEnd(s: string): (r: string)
    ensures r == "" || !IsSpace(r[|r| - 1])
    ensures r <= s
    decreases |s|
  {
    if |s| > 0 && IsSpace(s[|s| - 1]) then TrimEnd(s[..|s| - 1]) else s
  }

  /** `str.strip()` with no argument. */
  function Strip(s: string): (r: string)
    ensures IsStripped(r)
  {
    TrimStart(TrimEnd(s))
  }

  lemma StripStripped(s: string)
    requires IsStripped(s)
    ensures Strip(s) == s
  {
  }

  /** Case mapping keeps a stripped string stripped. */
  lemma LowerStripped(s: string)
    requires IsStripped(s)
    ensures IsStripped(Lower(s))
  {
  }

  // ---------------------------------------------------------------- `in`

  /** Python's `needle in hay` on strings. */
  predicate Contains(hay: string, needle: string)
    decreases |hay|
  {
    needle <= hay || (|hay| > 0 && Contains(hay[1..], needle))
  }

  /** A needle whose first character does not occur in `hay` is not in it. */
  lemma {:induction false} AbsentFirstChar(hay: string, needle: string)
    requires |needle| > 0 && needle[0] !in hay
    ensures !Contains(hay, needle)
    decreases |hay|
  {
    if |hay| > 0 {
      assert forall c :: c in hay[1..] ==> c in hay;
      AbsentFirstChar(hay[1..], needle);
    }
  }

  /** A needle holding a character that `hay` lacks is not in it. */
  lemma {:induction false} AbsentChar(hay: string, needle: string, c: char)
    requires c in needle && c !in hay
    ensures !Contains(hay, needle)
    decreases |hay|
  {
    assert needle <= hay ==> forall d :: d in needle ==> d in hay;
    if |hay| > 0 {
      assert forall d :: d in hay[1..] ==> d in hay;
      AbsentChar(hay[1..], needle, c);
    }
  }

  /** `needle` occurs in `hay` starting at position `k`. */
  predicate MatchesAt(hay: string, needle: string, k: nat)
  {
    k + |needle| <= |hay| && hay[k..k + |needle|] == needle
  }

  /** A needle that matches at no position of `hay` is not in it. */
  lemma {:induction false} NoOccurrence(hay: string, needle: string)
    requires forall k: nat :: !MatchesAt(hay, needle, k)
    ensures !Contains(hay, needle)
    decreases |hay|
  {
    assert !MatchesAt(hay, needle, 0);
    if |hay| > 0 {
      var t := hay[1..];
      forall k: nat
        ensures !MatchesAt(t, needle, k)
      {
        assert !MatchesAt(hay, needle, k + 1);
        if k + |needle| <= |t| {
          assert t[k..k + |needle|] == hay[k + 1..k + 1 + |needle|];
        }
      }
      NoOccurrence(t, needle);
    }
  }

  lemma {:induction false} ContainsItself(s: string)
    ensures Contains(s, s)
  {
  }

  // ---------------------------------------------------------------- split

  /** One item of `str.split()`: non-empty, without whitespace. */
  predicate IsWord(w: string)
  {
    |w| > 0 && forall i :: 0 <= i < |w| ==> !IsSpace(w[i])
  }

  /** Length of the word that starts `s`. */
  function WordEnd(s: string): (n: nat)
    requires |s| > 0 && !IsSpace(s[0])
    ensures 1 <= n <= |s|
    decreases |s|
  {
    if |s| == 1 || IsSpace(s[1]) then 1 else 1 + WordEnd(s[1..])
  }

  /** The word runs up to the first whitespace character. */
  lemma {:induction false} WordEndSpec(s: string)
    requires |s| > 0 && !IsSpace(s[0])
    ensures forall i :: 0 <= i < WordEnd(s) ==> !IsSpace(s[i])
    ensures WordEnd(s) < |s| ==> IsSpace(s[WordEnd(s)])
    decreases |s|
  {
    if !(|s| == 1 || IsSpace(s[1])) {
      WordEndSpec(s[1..]);
    }
  }

  /** `str.split()` with no argument: the maximal runs of non-whitespace. */
  function Split(s: string): (ws: seq<string>)
    ensures forall k :: 0 <= k < |ws| ==> IsWord(ws[k])
    decreases |s|
  {
    if |s| == 0 then []
    else if IsSpace(s[0]) then Split(s[1..])
    else
      var n := WordEnd(s);
      WordEndSpec(s);
      assert IsWord(s[..n]);
      [s[..n]] + Split(s[n..])
  }

  /** The words joined by single spaces. */
  function Join(ws: seq<string>): string
  {
    if |ws| == 0 then ""
    else if |ws| == 1 then ws[0]
    else Join(ws[..|ws| - 1]) + " " + ws[|ws| - 1]
  }

  lemma {:induction false} WordEndOfWord(w: string)
    requires IsWord(w)
    ensures WordEnd(w) == |w|
    decreases |w|
  {
    if |w| > 1 {
      assert IsWord(w[1..]);
      WordEndOfWord(w[1..]);
    }
  }

  lemma {:induction false} WordEndBeforeSpace(a: string, t: string)
    requires |a| > 0 && !IsSpace(a[0]) && |t| > 0 && IsSpace(t[0])
    ensures WordEnd(a + t) == WordEnd(a)
    decreases |a|
  {
    if |a| > 1 && !IsSpace(a[1]) {
      assert (a + t)[1..] == a[1..] + t;
      WordEndBeforeSpace(a[1..], t);
    }
  }

  /** Splitting in front of whitespace splits the two sides independently. */
  lemma {:induction false} SplitBeforeSpace(a: string, t: string)
    requires |t| > 0 && IsSpace(t[0])
    ensures Split(a + t) == Split(a) + Split(t)
    decreases |a|
  {
    if |a| == 0 {
      assert a + t == t;
    } else if IsSpace(a[0]) {
      assert (a + t)[1..] == a[1..] + t;
      SplitBeforeSpace(a[1..], t);
    } else {
      SplitBeforeSpace(a[WordEnd(a)..], t);
      SplitBeforeSpaceAfterWord(a, t);
    }
  }

  lemma AppendAssoc<T>(x: seq<T>, y: seq<T>, z: seq<T>)
    ensures x + (y + z) == (x + y) + z
  {
  }

  /** The step of `SplitBeforeSpace` when `a` starts with a word. */
  lemma SplitBeforeSpaceAfterWord(a: string, t: string)
    requires |t| > 0 && IsSpace(t[0]) && |a| > 0 && !IsSpace(a[0])
    requires Split(a[WordEnd(a)..] + t) == Split(a[WordEnd(a)..]) + Split(t)
    ensures Split(a + t) == Split(a) + Split(t)
  {
    var n := WordEnd(a);
    SplitWordThenSpace(a, t);
    AppendAssoc([a[..n]], Split(a[n..]), Split(t));
    SplitFirstWord(a);
  }

  /** The first word of `a + t` is the first word of `a`, when `t` starts with whitespace. */
  lemma SplitWordThenSpace(a: string, t: string)
    requires |t| > 0 && IsSpace(t[0]) && |a| > 0 && !IsSpace(a[0])
    ensures Split(a + t) == [a[..WordEnd(a)]] + Split(a[WordEnd(a)..] + t)
  {
    var n := WordEnd(a);
    var s := a + t;
    WordEndBeforeSpace(a, t);
    SplitFirstWord(s);
    assert s[..n] == a[..n];
    assert s[n..] == a[n..] + t;
  }

  /** A string starting with a word splits into that word and the split of the rest. */
  lemma SplitFirstWord(s: string)
    requires |s| > 0 && !IsSpace(s[0])
    ensures Split(s) == [s[..WordEnd(s)]] + Split(s[WordEnd(s)..])
  {
  }

  lemma SplitOfWord(w: string)
    requires IsWord(w)
    ensures Split(w) == [w]
  {
    WordEndOfWord(w);
    assert w[..|w|] == w;
    assert w[|w|..] == [];
  }

  /** Joining words and splitting again gives the words back. */
  lemma {:induction false} SplitJoin(ws: seq<string>)
    requires forall k :: 0 <= k < |ws| ==> IsWord(ws[k])
    ensures Split(Join(ws)) == ws
    decreases |ws|
  {
    if |ws| == 1 {
      SplitOfWord(ws[0]);
    } else if |ws| > 1 {
      var init := ws[..|ws| - 1];
      SplitJoin(init);
      var t := [' '] + ws[|ws| - 1];
      SplitBeforeSpace(Join(init), t);
      assert Join(ws) == Join(init) + t;
      assert Split(t) == Split(ws[|ws| - 1]) by {
        assert t[1..] == ws[|ws| - 1];
      }
      SplitOfWord(ws[|ws| - 1]);
      assert ws == init + [ws[|ws| - 1]];
    }
  }

  /** Joined words have no whitespace at either end. */
  lemma {:induction false} JoinStripped(ws: seq<string>)
    requires |ws| > 0 && forall k :: 0 <= k < |ws| ==> IsWord(ws[k])
    ensures IsStripped(Join(ws)) && Join(ws) != ""
    decreases |ws|
  {
    if |ws| > 1 {
      JoinStripped(ws[..|ws| - 1]);
    }
  }

  // ---------------------------------------------------------------- ordering

  /** Python's `a < b` on strings: lexicographic by code point. */
  predicate LexLess(a: string, b: string)
    decreases |a|
  {
    if |a| == 0 then |b| > 0
    else if |b| == 0 then false
    else if a[0] != b[0] then a[0] < b[0]
    else LexLess(a[1..], b[1..])
  }

  lemma {:induction false} LexIrreflexive(a: string)
    ensures !LexLess(a, a)
    decreases |a|
  {
    if |a| > 0 {
      LexIrreflexive(a[1..]);
    }
  }

  lemma {:induction false} LexAsymmetric(a: string, b: string)
    requires LexLess(a, b)
    ensures !LexLess(b, a)
    decreases |a|
  {
    if |a| > 0 && |b| > 0 && a[0] == b[0] {
      LexAsymmetric(a[1..], b[1..]);
    }
  }

  lemma {:induction false} LexTransitive(a: string, b: string, c: string)
    requires LexLess(a, b) && LexLess(b, c)
    ensures LexLess(a, c)
    decreases |a|
  {
    if |a| > 0 && |b| > 0 && |c| > 0 && a[0] == b[0] && b[0] == c[0] {
      LexTransitive(a[1..], b[1..], c[1..]);
    }
  }

  lemma {:induction false} LexTotal(a: string, b: string)
    requires a != b
    ensures LexLess(a, b) || LexLess(b, a)
    decreases |a|
  {
    if |a| > 0 && |b| > 0 && a[0] == b[0] {
      assert a == [a[0]] + a[1..] && b == [b[0]] + b[1..];
      LexTotal(a[1..], b[1..]);
    }
  }

  // ---------------------------------------------------------------- str(int)

  function DigitChar(d: nat): char
    requires d < 10
  {
    "0123456789"[d]
  }

  function NatToString(n: nat): (r: string)
    ensures |r| > 0
    decreases n
  {
    if n < 10 then [DigitChar(n)] else NatToString(n / 10) + [DigitChar(n % 10)]
  }

  /** `str(i)` for a Python int. */
  function IntToString(i: int): (r: string)
    ensures |r| > 0
  {
    if i < 0 then "-" + NatToString(-i) else NatToString(i)
  }

  // ---------------------------------------------------------------- split(",") and splitlines()

  /** `s.split(sep)` for a one-character separator: always at least one field. */
  function SplitOn(s: string, sep: char): (fields: seq<string>)
    ensures |fields| >= 1
    decreases |s|
  {
    if |s| == 0 then [""]
    else
      var rest := SplitOn(s[1..], sep);
      if s[0] == sep then [""] + rest else [[s[0]] + rest[0]] + rest[1..]
  }

  /** There is a second field exactly when the separator occurs. */
  lemma {:induction false} SplitOnFieldCount(s: string, sep: char)
    ensures |SplitOn(s, sep)| >= 2 <==> sep in s
    decreases |s|
  {
    if |s| > 0 {
      SplitOnFieldCount(s[1..], sep);
      assert s == [s[0]] + s[1..];
    }
  }

  /** The characters at which `str.splitlines()` ends a line. */
  predicate IsLineBreak(c: char)
  {
    c == '\n' || c == '\r' || c == '\U{0B}' || c == '\U{0C}' || ('\U{1C}' <= c <= '\U{1E}')
    || c == '\U{85}' || c == '\U{2028}' || c == '\U{2029}'
  }

  function LineEnd(s: string): (n: nat)
    ensures n <= |s|
    ensures n < |s| ==> IsLineBreak(s[n])
    decreases |s|
  {
    if |s| == 0 || IsLineBreak(s[0]) then 0 else 1 + LineEnd(s[1..])
  }

  /** `str.splitlines()`: "\r\n" is one break, and a final break opens no empty line. */
  function SplitLines(s: string): seq<string>
    decreases |s|
  {
    if |s| == 0 then []
    else
      var n := LineEnd(s);
      if n == |s| then [s]
      else
        var skip := if s[n] == '\r' && n + 1 < |s| && s[n + 1] == '\n' then 2 else 1;
        [s[..n]] + SplitLines(s[n + skip..])
  }
}
