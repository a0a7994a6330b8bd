/**
 * invoice.py: the text of the shipping label. The greedy word wrap measures
 * each candidate line with the drawing library's text width, taken here as
 * an arbitrary function; the order number, barcode text, address-line cap
 * and item window are small selections.
 */
module Invoice {
  import opened Text
  import opened Records

  // ------------------------------------------------------------------ word wrap

  /** The words of a list of lines, read line by line. */
  function WordsOf(lines: seq<string>): seq<string>
    decreases |lines|
  {
    if lines == [] then [] else WordsOf(lines[..|lines| - 1]) + Split(lines[|lines| - 1])
  }

  /** The words of a list of word groups, read group by group. */
  function Concat(groups: seq<seq<string>>): seq<string>
    decreases |groups|
  {
    if groups == [] then [] else Concat(groups[..|groups| - 1]) + groups[|groups| - 1]
  }

  lemma {:induction false} WordsOfGroups(lines: seq<string>, groups: seq<seq<string>>)
    requires |lines| == |groups|
    requires forall k :: 0 <= k < |lines| ==> Split(lines[k]) == groups[k]
    ensures WordsOf(lines) == Concat(groups)
    decreases |lines|
  {
    if lines != [] {
      WordsOfGroups(lines[..|lines| - 1], groups[..|groups| - 1]);
    }
  }

  /** `f"{line} {word}".strip()` on a line made of words gives the line with the word added. */
  lemma StripAppend(cur: seq<string>, w: string)
    requires forall k :: 0 <= k < |cur| ==> IsWord(cur[k])
    requires IsWord(w)
    ensures Strip(Join(cur) + " " + w) == Join(cur + [w])
  {
    var ws := cur + [w];
    assert forall k :: 0 <= k < |ws| ==> IsWord(ws[k]);
    JoinStripped(ws);
    if cur == [] {
      var s := " " + w;
      assert s[1..] == w;
      assert TrimEnd(s) == s;
      assert TrimStart(s) == TrimStart(w) == w;
    } else {
      assert ws[..|ws| - 1] == cur;
      StripStripped(Join(ws));
    }
  }

  /**
   * What `wrap_text` promises of `lines` for the words of a text: the lines
   * hold the words in order, without spaces at either end; only the first
   * line can be empty; no words, no lines.
   */
  ghost predicate KeepsWords(words: seq<string>, lines: seq<string>)
  {
    && WordsOf(lines) == words
    && (lines == [] <==> words == [])
    && (forall k :: 0 <= k < |lines| ==> IsStripped(lines[k]))
    && (forall k :: 0 < k < |lines| ==> lines[k] != "")
  }

  /**
   * What `wrap_text` promises of the widths: a line of two or more words
   * fits; each line but the last is full, in that the next word would have
   * made it too wide; an empty first line means the first word alone is too
   * wide.
   */
  ghost predicate Greedy(words: seq<string>, lines: seq<string>, width: string -> int, maxWidth: int)
  {
    && (forall k :: 0 <= k < |lines| && |Split(lines[k])| >= 2 ==> width(lines[k]) <= maxWidth)
    && (|lines| > 0 && lines[0] == "" ==> |words| > 0 && width(words[0]) > maxWidth)
    && (forall k, next :: 0 <= k && next == k + 1 && next < |lines| ==>
          |Split(lines[next])| > 0 && width(Strip(lines[k] + " " + Split(lines[next])[0])) > maxWidth)
  }

  /**
   * The words seen by the wrap loop after the first `n`: the finished
   * lines' word groups followed by the current line's words `cur`.
   */
  ghost predicate WrapWords(words: seq<string>, n: nat, groups: seq<seq<string>>, cur: seq<string>)
  {
    && n <= |words|
    && (forall j :: 0 <= j < |words| ==> IsWord(words[j]))
    && (forall k, j :: 0 <= k < |groups| && 0 <= j < |groups[k]| ==> IsWord(groups[k][j]))
    && (forall j :: 0 <= j < |cur| ==> IsWord(cur[j]))
    && Concat(groups) + cur == words[..n]
    && (n > 0 ==> cur != [])
    && (n == 0 ==> groups == [] && cur == [])
    && (forall k :: 0 < k < |groups| ==> groups[k] != [])
  }

  /** Each finished line and the current line are their word groups joined by spaces. */
  ghost predicate WrapLines(lines: seq<string>, groups: seq<seq<string>>, cur: seq<string>, line: string)
  {
    && |groups| == |lines|
    && (forall k :: 0 <= k < |lines| ==> lines[k] == Join(groups[k]))
    && line == Join(cur)
  }

  /** The widths the loop has checked so far. */
  ghost predicate WrapWidths(words: seq<string>, lines: seq<string>, groups: seq<seq<string>>,
                             cur: seq<string>, line: string, width: string -> int, maxWidth: int)
  {
    && |groups| == |lines|
    && (|groups| > 0 && groups[0] == [] ==> |words| > 0 && width(words[0]) > maxWidth)
    && (forall k :: 0 <= k < |groups| && |groups[k]| >= 2 ==> width(lines[k]) <= maxWidth)
    && (|cur| >= 2 ==> width(line) <= maxWidth)
    && (forall k, next :: 0 <= k && next == k + 1 && next < |groups| && groups[next] != [] ==>
          width(Join(groups[k] + [groups[next][0]])) > maxWidth)
    && (|groups| > 0 && cur != [] ==> width(Join(groups[|groups| - 1] + [cur[0]])) > maxWidth)
  }

  /** The next word either joins the current line or starts a new one. */
  lemma WrapWordsStep(words: seq<string>, n: nat, groups: seq<seq<string>>, cur: seq<string>)
    requires WrapWords(words, n, groups, cur) && n < |words|
    ensures WrapWords(words, n + 1, groups, cur + [words[n]])
    ensures WrapWords(words, n + 1, groups + [cur], [words[n]])
  {
    assert words[..n + 1] == words[..n] + [words[n]];
    assert Concat(groups) + (cur + [words[n]]) == (Concat(groups) + cur) + [words[n]];
    assert (groups + [cur])[..|groups|] == groups;
    assert Concat(groups + [cur]) == Concat(groups) + cur;
  }

  /** The next word fits: the widths checked so far still hold with it on the current line. */
  lemma WrapWidthsFits(words: seq<string>, n: nat, lines: seq<string>, groups: seq<seq<string>>,
                       cur: seq<string>, line: string, width: string -> int, maxWidth: int)
    requires WrapWidths(words, lines, groups, cur, line, width, maxWidth)
    requires n < |words| && width(Join(cur + [words[n]])) <= maxWidth
    requires cur == [] ==> groups == []
    ensures WrapWidths(words, lines, groups, cur + [words[n]], Join(cur + [words[n]]), width, maxWidth)
  {
    assert cur != [] ==> (cur + [words[n]])[0] == cur[0];
  }

  /** The next word does not fit: the current line is finished. */
  lemma WrapWidthsBreaks(words: seq<string>, n: nat, lines: seq<string>, groups: seq<seq<string>>,
                         cur: seq<string>, line: string, width: string -> int, maxWidth: int)
    requires WrapWidths(words, lines, groups, cur, line, width, maxWidth) && WrapLines(lines, groups, cur, line)
    requires n < |words| && width(Join(cur + [words[n]])) > maxWidth
    requires cur == [] ==> n == 0 && groups == []
    ensures WrapWidths(words, lines + [line], groups + [cur], [words[n]], words[n], width, maxWidth)
  {
    var out := lines + [line];
    var gs := groups + [cur];
    forall k | 0 <= k < |gs| && |gs[k]| >= 2
      ensures width(out[k]) <= maxWidth
    {
      if k == |groups| {
        assert gs[k] == cur && out[k] == line;
      } else {
        assert gs[k] == groups[k] && out[k] == lines[k];
      }
    }
    forall k, next | 0 <= k && next == k + 1 && next < |gs| && gs[next] != []
      ensures width(Join(gs[k] + [gs[next][0]])) > maxWidth
    {
      if next == |groups| {
        assert gs[k] == groups[|groups| - 1] && gs[next] == cur;
      } else {
        assert gs[k] == groups[k] && gs[next] == groups[next];
      }
    }
    assert cur == [] ==> cur + [words[n]] == [words[n]];
    assert gs[|gs| - 1] == cur;
  }

  /** Joining a word on keeps every line the join of its group. */
  lemma WrapLinesStep(lines: seq<string>, groups: seq<seq<string>>, cur: seq<string>, line: string, w: string)
    requires WrapLines(lines, groups, cur, line)
    ensures WrapLines(lines, groups, cur + [w], Join(cur + [w]))
    ensures WrapLines(lines + [line], groups + [cur], [w], w)
  {
  }

  /** The lines in the end, with their word groups. */
  lemma WrapEndGroups(words: seq<string>, lines: seq<string>, groups: seq<seq<string>>,
                      cur: seq<string>, line: string)
    requires WrapWords(words, |words|, groups, cur) && WrapLines(lines, groups, cur, line)
    ensures var out := if line != "" then lines + [line] else lines;
      var gs := if line != "" then groups + [cur] else groups;
      && |out| == |gs|
      && Concat(gs) == words
      && (forall k :: 0 <= k < |out| ==> out[k] == Join(gs[k]))
      && (forall k, j :: 0 <= k < |gs| && 0 <= j < |gs[k]| ==> IsWord(gs[k][j]))
      && (forall k :: 0 < k < |gs| ==> gs[k] != [])
      && (words == [] <==> out == [])
  {
    if line != "" {
      assert (groups + [cur])[..|groups|] == groups;
      assert Concat(groups + [cur]) == Concat(groups) + cur;
    } else if cur != [] {
      JoinStripped(cur);
    }
    assert words[..|words|] == words;
  }

  /** After the last word the lines keep the text's words. */
  lemma WrapEndWords(words: seq<string>, out: seq<string>, gs: seq<seq<string>>)
    requires |out| == |gs| && Concat(gs) == words && (words == [] <==> out == [])
    requires forall k :: 0 <= k < |out| ==> out[k] == Join(gs[k])
    requires forall k, j :: 0 <= k < |gs| && 0 <= j < |gs[k]| ==> IsWord(gs[k][j])
    requires forall k :: 0 < k < |gs| ==> gs[k] != []
    ensures KeepsWords(words, out)
    ensures forall k :: 0 <= k < |out| ==> Split(out[k]) == gs[k]
  {
    forall k | 0 <= k < |out|
      ensures Split(out[k]) == gs[k]
      ensures IsStripped(out[k])
      ensures gs[k] != [] ==> out[k] != ""
    {
      SplitJoin(gs[k]);
      if gs[k] != [] {
        JoinStripped(gs[k]);
      }
    }
    WordsOfGroups(out, gs);
  }

  /** Lines whose word groups were filled greedily are `Greedy`. */
  lemma GreedyOfGroups(words: seq<string>, out: seq<string>, gs: seq<seq<string>>, width: string -> int, maxWidth: int)
    requires |out| == |gs|
    requires forall k :: 0 <= k < |out| ==> out[k] == Join(gs[k]) && Split(out[k]) == gs[k]
    requires forall k, j :: 0 <= k < |gs| && 0 <= j < |gs[k]| ==> IsWord(gs[k][j])
    requires forall k :: 0 < k < |gs| ==> gs[k] != []
    requires |gs| > 0 && gs[0] == [] ==> |words| > 0 && width(words[0]) > maxWidth
    requires forall k :: 0 <= k < |gs| && |gs[k]| >= 2 ==> width(out[k]) <= maxWidth
    requires forall k, next :: 0 <= k && next == k + 1 && next < |gs| ==> width(Join(gs[k] + [gs[next][0]])) > maxWidth
    ensures Greedy(words, out, width, maxWidth)
  {
    forall k, next | 0 <= k && next == k + 1 && next < |out|
      ensures |Split(out[next])| > 0 && width(Strip(out[k] + " " + Split(out[next])[0])) > maxWidth
    {
      StripAppend(gs[k], gs[next][0]);
    }
    if |out| > 0 && out[0] == "" {
      assert gs[0] == Split("") == [];
    }
  }

  /** The widths checked by the loop still hold once the last line is added. */
  lemma WidthsWithLastLine(words: seq<string>, lines: seq<string>, groups: seq<seq<string>>,
                           cur: seq<string>, line: string, width: string -> int, maxWidth: int)
    requires WrapWidths(words, lines, groups, cur, line, width, maxWidth) && WrapLines(lines, groups, cur, line)
    requires line != ""
    ensures var out := lines + [line];
      var gs := groups + [cur];
      && (|gs| > 0 && gs[0] == [] ==> |words| > 0 && width(words[0]) > maxWidth)
      && (forall k :: 0 <= k < |gs| && |gs[k]| >= 2 ==> width(out[k]) <= maxWidth)
      && (forall k, next :: 0 <= k && next == k + 1 && next < |gs| && gs[next] != [] ==>
            width(Join(gs[k] + [gs[next][0]])) > maxWidth)
  {
    var out := lines + [line];
    var gs := groups + [cur];
    forall k | 0 <= k < |gs| && |gs[k]| >= 2
      ensures width(out[k]) <= maxWidth
    {
      if k == |groups| {
        assert gs[k] == cur && out[k] == line;
      } else {
        assert gs[k] == groups[k] && out[k] == lines[k];
      }
    }
    forall k, next | 0 <= k && next == k + 1 && next < |gs| && gs[next] != []
      ensures width(Join(gs[k] + [gs[next][0]])) > maxWidth
    {
      if next == |groups| {
        assert gs[k] == groups[|groups| - 1] && gs[next] == cur;
      } else {
        assert gs[k] == groups[k] && gs[next] == groups[next];
      }
    }
    assert Join([]) == "";
  }

  /** After the last word the lines are filled greedily. */
  lemma WrapEndWidths(words: seq<string>, lines: seq<string>, groups: seq<seq<string>>,
                      cur: seq<string>, line: string, width: string -> int, maxWidth: int)
    requires WrapWords(words, |words|, groups, cur) && WrapLines(lines, groups, cur, line)
    requires WrapWidths(words, lines, groups, cur, line, width, maxWidth)
    ensures Greedy(words, if line != "" then lines + [line] else lines, width, maxWidth)
  {
    WrapEndGroups(words, lines, groups, cur, line);
    var out := if line != "" then lines + [line] else lines;
    var gs := if line != "" then groups + [cur] else groups;
    WrapEndWords(words, out, gs);
    if line != "" {
      WidthsWithLastLine(words, lines, groups, cur, line, width, maxWidth);
    }
    GreedyOfGroups(words, out, gs, width, maxWidth);
  }

  /** What the wrap loop has seen after the first `n` words. */
  ghost predicate WrapState(words: seq<string>, n: nat, lines: seq<string>, groups: seq<seq<string>>,
                            cur: seq<string>, line: string, width: string -> int, maxWidth: int)
  {
    && WrapWords(words, n, groups, cur) && WrapLines(lines, groups, cur, line)
    && WrapWidths(words, lines, groups, cur, line, width, maxWidth)
  }

  /** One turn of the wrap loop keeps what the loop has seen, either way. */
  lemma WrapStep(words: seq<string>, n: nat, lines: seq<string>, groups: seq<seq<string>>,
                 cur: seq<string>, line: string, t: string, width: string -> int, maxWidth: int)
    requires WrapState(words, n, lines, groups, cur, line, width, maxWidth)
    requires n < |words| && t == Strip(line + " " + words[n])
    ensures width(t) <= maxWidth ==> WrapState(words, n + 1, lines, groups, cur + [words[n]], t, width, maxWidth)
    ensures width(t) > maxWidth ==>
      WrapState(words, n + 1, lines + [line], groups + [cur], [words[n]], words[n], width, maxWidth)
  {
    StripAppend(cur, words[n]);
    WrapWordsStep(words, n, groups, cur);
    WrapLinesStep(lines, groups, cur, line, words[n]);
    if width(Join(cur + [words[n]])) <= maxWidth {
      WrapWidthsFits(words, n, lines, groups, cur, line, width, maxWidth);
    } else {
      WrapWidthsBreaks(words, n, lines, groups, cur, line, width, maxWidth);
    }
  }

  /** After the loop, the last line added if it is not empty. */
  lemma WrapEnd(words: seq<string>, lines: seq<string>, groups: seq<seq<string>>,
                cur: seq<string>, line: string, out: seq<string>, width: string -> int, maxWidth: int)
    requires WrapState(words, |words|, lines, groups, cur, line, width, maxWidth)
    requires out == if line != "" then lines + [line] else lines
    ensures KeepsWords(words, out) && Greedy(words, out, width, maxWidth)
  {
    WrapEndGroups(words, lines, groups, cur, line);
    WrapEndWords(words, if line != "" then lines + [line] else lines, if line != "" then groups + [cur] else groups);
    WrapEndWidths(words, lines, groups, cur, line, width, maxWidth);
  }

  /** `wrap_text` with `width` for `draw.textlength`. */
  method WrapText(text: string, width: string -> int, maxWidth: int) returns (lines: seq<string>)
    ensures KeepsWords(Split(text), lines)
    ensures Greedy(Split(text), lines, width, maxWidth)
  {
    var words := Split(text);
    lines := [];
    var line := "";
    ghost var groups: seq<seq<string>> := [];
    ghost var cur: seq<string> := [];
    assert words[..0] == [];
    for i := 0 to |words|
      invariant WrapState(words, i, lines, groups, cur, line, width, maxWidth)
    {
      var word := words[i];
      var testLine := Strip(line + " " + word);
      WrapStep(words, i, lines, groups, cur, line, testLine, width, maxWidth);
      if width(testLine) <= maxWidth {
        line := testLine;
        cur := cur + [word];
      } else {
        lines := lines + [line];
        groups := groups + [cur];
        line := word;
        cur := [word];
      }
    }
    ghost var finished := lines;
    if line != "" {
      lines := lines + [line];
    }
    WrapEnd(words, finished, groups, cur, line, lines, width, maxWidth);
  }

  // ------------------------------------------------------------------ label fields

  /**
   * `siparis_no`: the Hepsiburada `order_number` (None when missing) for a
   * Hepsiburada order, whatever the case of its platform; otherwise `no`,
   * "-" when missing.
   */
  function OrderNumber(o: Order): (n: Field)
    ensures Lower(o.entegration) == "hepsiburada" ==> n == o.orderNumber
    ensures Lower(o.entegration) != "hepsiburada" && o.no != Absent ==> n == o.no
    ensures Lower(o.entegration) != "hepsiburada" && o.no == Absent ==> n == Str("-")
  {
    if Lower(o.entegration) == "hepsiburada" then o.orderNumber else o.no.GetOr(Str("-"))
  }

  /** Outside Hepsiburada the label shows the key the handlers look the order up by. */
  lemma OrderNumberIsNoKey(o: Order)
    requires Lower(o.entegration) != "hepsiburada" && o.no != Absent
    ensures OrderNumber(o).PyStr() == NoKey(o)
  {
  }

  /** `str(order.get("cargo_code", "")).strip()`. */
  function CargoText(o: Order): (c: string)
    ensures IsStripped(c)
  {
    Strip(o.cargoCode.GetOr(Str("")).PyStr())
  }

  /** `barkod_val`: the cargo code, or the order number when the code is empty or "-". */
  function BarcodeValue(o: Order): (b: string)
    ensures CargoText(o) != "" && CargoText(o) != "-" ==> b == CargoText(o)
    ensures CargoText(o) == "" || CargoText(o) == "-" ==> b == OrderNumber(o).PyStr()
  {
    var v := CargoText(o);
    if v == "" || v == "-" then OrderNumber(o).PyStr() else v
  }

  /**
   * The barcode is never empty or "-" unless the order number itself reads
   * that way; and a null `cargo_code` is printed as "None" rather than
   * falling back.
   */
  lemma BarcodeFallback(o: Order)
    ensures BarcodeValue(o) == "" || BarcodeValue(o) == "-" ==> BarcodeValue(o) == OrderNumber(o).PyStr()
    ensures o.cargoCode == Null ==> BarcodeValue(o) == "None"
  {
    if o.cargoCode == Null {
      assert Strip("None") == "None" by {
        StripStripped("None");
      }
    }
  }

  // ------------------------------------------------------------------ caps

  const MaxAddressLines: nat := 4

  /** `adres_lines[:4]`. */
  function AddressLines(lines: seq<string>): (shown: seq<string>)
    ensures |shown| <= MaxAddressLines && shown <= lines
    ensures |lines| <= MaxAddressLines ==> shown == lines
  {
    if |lines| <= MaxAddressLines then lines else lines[..MaxAddressLines]
  }

  /** Python's clamping of one slice bound. */
  function SliceBound(i: int, n: nat): (b: nat)
    ensures b <= n
    ensures 0 <= i <= n ==> b == i
  {
    if i < 0 then (if i + n < 0 then 0 else i + n)
    else if i > n then n else i
  }

  /** `urunler[start:start + max_rows]` with Python's slice rules. */
  function VisibleItems<T>(items: seq<T>, start: int, maxRows: int): (shown: seq<T>)
    ensures 0 <= start && 0 <= maxRows ==> |shown| <= maxRows
    ensures 0 <= start <= |items| && 0 <= maxRows ==>
      shown == items[start..(if start + maxRows <= |items| then start + maxRows else |items|)]
    ensures forall x :: x in shown ==> x in items
  {
    var lo := SliceBound(start, |items|);
    var hi := SliceBound(start + maxRows, |items|);
    if lo < hi then items[lo..hi] else []
  }

  /** Two consecutive windows of `m` rows show the same items as one window of `2 m`. */
  lemma VisibleWindowsCover<T>(items: seq<T>, start: nat, m: nat)
    requires start <= |items|
    ensures VisibleItems(items, start, m) + VisibleItems(items, start + m, m) == VisibleItems(items, start, 2 * m)
  {
    if start + m > |items| {
      assert VisibleItems(items, start + m, m) == [];
    }
  }
}
