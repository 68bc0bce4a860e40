/**
 * The text layout of `numpy/core/arrayprint.py`: `_extendLine`, the
 * summarised `_formatArray`, `_leading_trailing`, `BoolFormat`,
 * `StructureFormat`, `SubArrayFormat` and the dtype suffix of
 * `array_repr`. Elements reach the layout already formatted as words.
 */
module PrintLayout {
  import opened Wrappers
  import opened DescrMath
  import Pep3118

  // ---------------------------------------------------------------------
  // strings

  /** `str.isspace` for one character. */
  predicate IsSpace(c: char) {
    c == ' ' || 9 <= c as int <= 13 || 0x1c <= c as int <= 0x1f || 0x2000 <= c as int <= 0x200a
    || c as int in {0x85, 0xa0, 0x1680, 0x2028, 0x2029, 0x202f, 0x205f, 0x3000}
  }

  /** `str.rstrip()`. */
  function RStrip(s: string): (r: string)
    ensures |r| <= |s| && r == s[..|r|]
    ensures r == [] || !IsSpace(r[|r| - 1])
  {
    if s == [] || !IsSpace(s[|s| - 1]) then s else RStrip(s[..|s| - 1])
  }

  /** What `rstrip` removes is blank, so the result is the longest prefix
      that does not end in a blank. */
  lemma {:induction false} RStripRemovesBlanks(s: string)
    ensures forall i :: |RStrip(s)| <= i < |s| ==> IsSpace(s[i])
  {
    if s != [] && IsSpace(s[|s| - 1]) {
      RStripRemovesBlanks(s[..|s| - 1]);
    }
  }

  lemma RStripKeepsHead(s: string)
    requires s != [] && !IsSpace(s[0])
    ensures RStrip(s) != [] && RStrip(s)[0] == s[0]
  {
  }

  function Join(parts: seq<string>, sep: string): string {
    if parts == [] then ""
    else if |parts| == 1 then parts[0]
    else parts[0] + sep + Join(parts[1..], sep)
  }

  function Concat(parts: seq<string>): string {
    if parts == [] then "" else parts[0] + Concat(parts[1..])
  }

  function TotalLength(parts: seq<string>): nat {
    if parts == [] then 0 else |parts[0]| + TotalLength(parts[1..])
  }

  /** Python's `s[n:]`, which is empty when `s` is shorter. */
  function Drop(s: string, n: nat): string {
    if n <= |s| then s[n..] else ""
  }

  // ---------------------------------------------------------------------
  // _extendLine

  /** `_extendLine`: the line is flushed, without trailing blanks, when the
      word would reach `maxLen`, and the word starts the next line after the
      prefix. */
  function ExtendLine(s: string, line: string, word: string, maxLen: int, prefix: string): (r: (string, string))
    ensures var flush := |RStrip(line)| + |RStrip(word)| >= maxLen;
            && (flush ==> r.0 == s + RStrip(line) + "\n" && r.1 == prefix + word)
            && (!flush ==> r.0 == s && r.1 == line + word)
    // nothing already written changes
    ensures r.0[..|s|] == s
  {
    if |RStrip(line)| + |RStrip(word)| >= maxLen then (s + RStrip(line) + "\n", prefix + word)
    else (s, line + word)
  }

  /** The words added one after the other. */
  function Fill(s: string, line: string, words: seq<string>, maxLen: int, prefix: string): (r: (string, string))
    requires |line| >= |prefix| && line[..|prefix|] == prefix
    ensures |r.1| >= |prefix| && r.1[..|prefix|] == prefix
    decreases words
  {
    if words == [] then (s, line)
    else
      var next := ExtendLine(s, line, words[0], maxLen, prefix);
      Fill(next.0, next.1, words[1..], maxLen, prefix)
  }

  /** When everything fits, no line is flushed and the words follow one
      another on the first line. */
  lemma {:induction false} FillFits(s: string, line: string, words: seq<string>, maxLen: int, prefix: string)
    requires |line| >= |prefix| && line[..|prefix|] == prefix
    requires |line| + TotalLength(words) < maxLen
    ensures Fill(s, line, words, maxLen, prefix) == (s, line + Concat(words))
    decreases words
  {
    if words != [] {
      var line' := line + words[0];
      assert TotalLength(words) == |words[0]| + TotalLength(words[1..]);
      assert |RStrip(line)| + |RStrip(words[0])| < maxLen;
      assert ExtendLine(s, line, words[0], maxLen, prefix) == (s, line');
      assert Fill(s, line, words, maxLen, prefix) == Fill(s, line', words[1..], maxLen, prefix);
      assert line'[..|prefix|] == prefix;
      FillFits(s, line', words[1..], maxLen, prefix);
      assert Concat(words) == words[0] + Concat(words[1..]);
      assert line' + Concat(words[1..]) == line + Concat(words);
    } else {
      assert line + Concat(words) == line;
    }
  }

  // ---------------------------------------------------------------------
  // summaries

  /** How many items `_formatArray` shows in front and at the back, and the
      marker between them. */
  datatype Summary = Summary(leading: nat, trailing: nat, insert: string)

  function Summarize(len: nat, edge: nat, summaryInsert: string): (r: Summary)
    ensures r.insert != "" <==> summaryInsert != "" && 2 * edge < len
    ensures r.insert != "" ==> r.leading == edge && r.trailing == edge && r.insert == summaryInsert
    ensures r.insert == "" ==> r.leading == 0 && r.trailing == len
  {
    if summaryInsert != "" && 2 * edge < len then Summary(edge, edge, summaryInsert)
    else Summary(0, len, "")
  }

  /** The items in front, the ones at the back that precede the last, and
      the last one, as `_formatArray` visits them. */
  function Middle<T>(items: seq<T>, sm: Summary): seq<T>
    requires sm.trailing <= |items|
  {
    if sm.trailing >= 1 then items[|items| - sm.trailing..|items| - 1] else []
  }

  function ShownItems<T>(items: seq<T>, sm: Summary): seq<T>
    requires |items| >= 1 && sm.leading <= |items| && sm.trailing <= |items|
  {
    items[..sm.leading] + Middle(items, sm) + [items[|items| - 1]]
  }

  /** Without a summary every item is shown in order; with one, `edge` in
      front and `edge` at the back, except that the last item is always
      shown. */
  lemma ShownItemsSpec<T>(items: seq<T>, edge: nat, summaryInsert: string)
    requires |items| >= 1
    ensures var sm := Summarize(|items|, edge, summaryInsert);
            && (sm.insert == "" ==> ShownItems(items, sm) == items)
            && (sm.insert != "" && edge >= 1 ==> ShownItems(items, sm) == items[..edge] + items[|items| - edge..])
            && (sm.insert != "" && edge == 0 ==> ShownItems(items, sm) == [items[|items| - 1]])
  {
    var sm := Summarize(|items|, edge, summaryInsert);
    if sm.insert == "" {
      ShownAll(items, sm);
    } else {
      ShownEdges(items, sm);
    }
  }

  lemma ShownAll<T>(items: seq<T>, sm: Summary)
    requires |items| >= 1 && sm.leading == 0 && sm.trailing == |items|
    ensures ShownItems(items, sm) == items
  {
    assert items[..0] + items[0..|items| - 1] + [items[|items| - 1]] == items;
  }

  lemma ShownEdges<T>(items: seq<T>, sm: Summary)
    requires 2 * sm.leading < |items| && sm.trailing == sm.leading
    ensures sm.leading >= 1 ==> ShownItems(items, sm) == items[..sm.leading] + items[|items| - sm.leading..]
    ensures sm.leading == 0 ==> ShownItems(items, sm) == [items[|items| - 1]]
  {
    var n, e := |items|, sm.leading;
    if e >= 1 {
      assert items[n - e..n - 1] + [items[n - 1]] == items[n - e..];
    }
  }

  // ---------------------------------------------------------------------
  // _formatArray

  /** An array whose elements are already formatted: a 0-d element or a
      dimension of sub-arrays. */
  datatype Nd = Scalar(word: string) | Dim(items: seq<Nd>)

  /** `a` has the given shape. */
  predicate Regular(a: Nd, shape: seq<nat>) {
    match a
    case Scalar(_) => shape == []
    case Dim(items) =>
      shape != [] && |items| == shape[0] && forall i :: 0 <= i < |items| ==> Regular(items[i], shape[1..])
  }

  predicate Positive(shape: seq<nat>) {
    forall i :: 0 <= i < |shape| ==> shape[i] > 0
  }

  function Words(items: seq<Nd>): (r: seq<string>)
    requires forall i :: 0 <= i < |items| ==> items[i].Scalar?
    ensures |r| == |items| && forall i :: 0 <= i < |items| ==> r[i] == items[i].word
  {
    if items == [] then [] else [items[0].word] + Words(items[1..])
  }

  function WithSeparator(words: seq<string>, sep: string): (r: seq<string>)
    ensures |r| == |words| && forall i :: 0 <= i < |words| ==> r[i] == words[i] + sep
  {
    if words == [] then [] else [words[0] + sep] + WithSeparator(words[1..], sep)
  }

  /** The words of a one-dimensional array in the order they are added to
      the line. */
  function Rank1Words(words: seq<string>, sep: string, sm: Summary): seq<string>
    requires |words| >= 1 && sm.leading <= |words| && sm.trailing <= |words|
  {
    WithSeparator(words[..sm.leading], sep)
      + (if sm.insert != "" then [sm.insert] else [])
      + WithSeparator(Middle(words, sm), sep)
      + [words[|words| - 1]]
  }

  /** `_formatArray` for rank one. */
  function FormatRank1(words: seq<string>, sep: string, maxLen: int, prefix: string, edge: nat, summaryInsert: string): (r: string)
    requires |words| >= 1
    ensures |r| >= 3 && r[0] == '[' && r[|r| - 2..] == "]\n"
  {
    var sm := Summarize(|words|, edge, summaryInsert);
    var filled := Fill("", prefix, Rank1Words(words, sep, sm), maxLen, prefix);
    var s := filled.0 + filled.1 + "]\n";
    "[" + Drop(s, |prefix|)
  }

  /** Short arrays stay on one line: the words joined by the separator,
      in brackets. */
  lemma OneLine(words: seq<string>, sep: string, maxLen: int, prefix: string)
    requires |words| >= 1
    requires |prefix| + TotalLength(WithSeparator(words[..|words| - 1], sep)) + |words[|words| - 1]| < maxLen
    ensures FormatRank1(words, sep, maxLen, prefix, 0, "") == "[" + Join(words, sep) + "]\n"
  {
    var ws := Rank1Words(words, sep, Summarize(|words|, 0, ""));
    UnsummarizedWords(words, sep);
    JoinPieces(words, sep, ws);
    assert prefix[..|prefix|] == prefix;
    FillFits("", prefix, ws, maxLen, prefix);
    var filled := Fill("", prefix, ws, maxLen, prefix);
    FormatRank1Filled(words, sep, maxLen, prefix, 0, "", filled);
    CloseOneLine(prefix, filled, Join(words, sep));
  }

  lemma CloseOneLine(prefix: string, filled: (string, string), body: string)
    requires filled == ("", prefix + body)
    ensures "[" + Drop(filled.0 + filled.1 + "]\n", |prefix|) == "[" + body + "]\n"
  {
    assert filled.0 + filled.1 == prefix + body;
    DropPrefix(prefix, body, "]\n");
  }

  lemma FormatRank1Filled(words: seq<string>, sep: string, maxLen: int, prefix: string, edge: nat, summaryInsert: string,
                          filled: (string, string))
    requires |words| >= 1
    requires filled == Fill("", prefix, Rank1Words(words, sep, Summarize(|words|, edge, summaryInsert)), maxLen, prefix)
    ensures FormatRank1(words, sep, maxLen, prefix, edge, summaryInsert) == "[" + Drop(filled.0 + filled.1 + "]\n", |prefix|)
  {
  }

  lemma JoinPieces(words: seq<string>, sep: string, ws: seq<string>)
    requires |words| >= 1
    requires ws == WithSeparator(words[..|words| - 1], sep) + [words[|words| - 1]]
    ensures Concat(ws) == Join(words, sep)
    ensures TotalLength(ws) == TotalLength(WithSeparator(words[..|words| - 1], sep)) + |words[|words| - 1]|
  {
    var front, last := WithSeparator(words[..|words| - 1], sep), words[|words| - 1];
    TotalLengthAppend(front, [last]);
    assert TotalLength([last]) == |last|;
    ConcatAppend(front, [last]);
    assert Concat([last]) == last;
    JoinAsConcat(words, sep);
  }

  lemma UnsummarizedWords(words: seq<string>, sep: string)
    requires |words| >= 1
    ensures Rank1Words(words, sep, Summarize(|words|, 0, "")) == WithSeparator(words[..|words| - 1], sep) + [words[|words| - 1]]
  {
    var sm := Summarize(|words|, 0, "");
    assert words[..0] == [];
    assert Middle(words, sm) == words[..|words| - 1];
  }

  lemma DropPrefix(prefix: string, rest: string, tail: string)
    ensures Drop(prefix + rest + tail, |prefix|) == rest + tail
  {
    assert (prefix + rest + tail)[|prefix|..] == rest + tail;
  }

  lemma {:induction false} TotalLengthAppend(a: seq<string>, b: seq<string>)
    ensures TotalLength(a + b) == TotalLength(a) + TotalLength(b)
  {
    if a == [] {
      assert a + b == b;
    } else {
      assert (a + b)[1..] == a[1..] + b;
      TotalLengthAppend(a[1..], b);
    }
  }

  lemma {:induction false} ConcatAppend(a: seq<string>, b: seq<string>)
    ensures Concat(a + b) == Concat(a) + Concat(b)
  {
    if a == [] {
      assert a + b == b;
    } else {
      assert (a + b)[1..] == a[1..] + b;
      ConcatAppend(a[1..], b);
    }
  }

  /** Joining is writing every word but the last with its separator. */
  lemma {:induction false} JoinAsConcat(words: seq<string>, sep: string)
    requires |words| >= 1
    ensures Join(words, sep) == Concat(WithSeparator(words[..|words| - 1], sep)) + words[|words| - 1]
  {
    if |words| == 1 {
      assert WithSeparator(words[..0], sep) == [];
    } else {
      var rest := words[1..];
      JoinAsConcat(rest, sep);
      assert words[..|words| - 1] == [words[0]] + rest[..|rest| - 1];
      assert WithSeparator(words[..|words| - 1], sep) == [words[0] + sep] + WithSeparator(rest[..|rest| - 1], sep);
    }
  }

  /** `_extendLine` on `arange(3)` with a line width of 4: the third word
      no longer fits and starts a new line after the one-blank prefix. */
  lemma WrapExample(zero: string, one: string, two: string)
    requires zero == "0" && one == "1" && two == "2"
    ensures FormatRank1([zero, one, two], " ", 4, " ", 3, "") == "[0 1\n 2]\n"
  {
    var ws := Rank1Words([zero, one, two], " ", Summarize(3, 3, ""));
    ExampleWords(zero, one, two, ws);
    var e1 := ExtendLine("", " ", ws[0], 4, " ");
    ExampleStep1(ws[0], e1);
    var e2 := ExtendLine(e1.0, e1.1, ws[1], 4, " ");
    ExampleStep2(e1.1, ws[1], e2);
    var e3 := ExtendLine(e2.0, e2.1, ws[2], 4, " ");
    ExampleStep3(e2.1, ws[2], e3);
    FillSteps(ws, e1, e2, e3);
    FormatRank1Filled([zero, one, two], " ", 4, " ", 3, "", e3);
    ExampleClose(e3);
  }

  lemma ExampleClose(e: (string, string))
    requires e == (" 0 1\n", " 2")
    ensures "[" + Drop(e.0 + e.1 + "]\n", 1) == "[0 1\n 2]\n"
  {
    assert e.0 + e.1 + "]\n" == " " + "0 1\n 2]\n" + "";
    DropPrefix(" ", "0 1\n 2]\n", "");
  }

  lemma ExampleWords(zero: string, one: string, two: string, ws: seq<string>)
    requires zero == "0" && one == "1" && two == "2"
    requires ws == Rank1Words([zero, one, two], " ", Summarize(3, 3, ""))
    ensures ws == ["0 ", "1 ", "2"]
  {
    var sm := Summarize(3, 3, "");
    assert [zero, one, two][..0] == [];
    assert Middle([zero, one, two], sm) == [zero, one];
    var front := WithSeparator([zero, one], " ");
    assert front[0] == "0 " && front[1] == "1 ";
    assert ws == WithSeparator([], " ") + [] + front + [two];
  }

  lemma ExampleStep1(word: string, e: (string, string))
    requires word == "0 " && e == ExtendLine("", " ", word, 4, " ")
    ensures e == ("", " 0 ")
  {
    assert RStrip(word) == word[..1] && RStrip(" ") == [];
    assert " " + word == " 0 ";
  }

  lemma ExampleStep2(line: string, word: string, e: (string, string))
    requires line == " 0 " && word == "1 " && e == ExtendLine("", line, word, 4, " ")
    ensures e == ("", " 0 1 ")
  {
    assert RStrip(line) == line[..2] && RStrip(word) == word[..1];
    assert line + word == " 0 1 ";
  }

  lemma ExampleStep3(line: string, word: string, e: (string, string))
    requires line == " 0 1 " && word == "2" && e == ExtendLine("", line, word, 4, " ")
    ensures e == (" 0 1\n", " 2")
  {
    assert RStrip(line) == line[..4];
    assert RStrip(word) == word;
    assert "" + line[..4] + "\n" == " 0 1\n";
    assert " " + word == " 2";
  }

  lemma FillSteps(ws: seq<string>, e1: (string, string), e2: (string, string), e3: (string, string))
    requires |ws| == 3
    requires e1 == ExtendLine("", " ", ws[0], 4, " ")
    requires e2 == ExtendLine(e1.0, e1.1, ws[1], 4, " ")
    requires e3 == ExtendLine(e2.0, e2.1, ws[2], 4, " ")
    ensures Fill("", " ", ws, 4, " ") == e3
  {
    assert Fill("", " ", ws, 4, " ") == Fill(e1.0, e1.1, ws[1..], 4, " ");
    assert Fill(e1.0, e1.1, ws[1..], 4, " ") == Fill(e2.0, e2.1, ws[2..], 4, " ");
    assert Fill(e2.0, e2.1, ws[2..], 4, " ") == Fill(e3.0, e3.1, ws[3..], 4, " ");
  }

  // ---------------------------------------------------------------------
  // several dimensions

  /** The loops of `_formatArray` over the sub-arrays above rank one: each
      sub-array goes after the prefix (all but the first of the array), its
      trailing blanks are dropped, and the separator and newlines follow. */
  function AddRows(s: string, rows: seq<string>, firstPrefixed: bool, prefix: string, tail: string): (r: string)
    requires s != [] && s[0] == '['
    ensures r != [] && r[0] == '['
    decreases rows
  {
    if rows == [] then s
    else
      var t := (if firstPrefixed then s + prefix else s) + rows[0];
      RStripKeepsHead(t);
      AddRows(RStrip(t) + tail, rows[1..], true, prefix, tail)
  }

  function Newlines(n: nat): (r: string)
    ensures |r| == n && forall i :: 0 <= i < n ==> r[i] == '\n'
  {
    if n == 0 then "" else "\n" + Newlines(n - 1)
  }

  /** `_formatArray` above rank one, given the text of every sub-array. */
  function Nest(sub: seq<string>, rank: nat, prefix: string, separator: string, edge: nat, summaryInsert: string): (r: string)
    requires |sub| >= 1 && rank >= 2
    ensures |r| >= 3 && r[0] == '[' && r[|r| - 2..] == "]\n"
  {
    var sm := Summarize(|sub|, edge, summaryInsert);
    var tail := RStrip(RStrip(separator)) + Newlines(rank - 1);
    var s1 := AddRows("[", sub[..sm.leading], false, prefix, tail);
    var s2 := if sm.insert != "" then s1 + prefix + sm.insert + "\n" else s1;
    var s3 := AddRows(s2, Middle(sub, sm), sm.leading > 0, prefix, tail);
    var s4 := if sm.leading > 0 || sm.trailing > 1 then s3 + prefix else s3;
    Close(s4, RStrip(sub[|sub| - 1]))
  }

  /** The last sub-array and the closing bracket. */
  function Close(s: string, last: string): (r: string)
    requires s != [] && s[0] == '['
    ensures |r| >= 3 && r[0] == '[' && r[|r| - 2..] == "]\n"
  {
    var r := s + last + "]\n";
    assert r[|r| - 2..] == "]\n";
    r
  }

  /** `_formatArray`: a 0-d array is its word; every dimension is written
      in brackets, the sub-arrays indented one more blank. */
  function FormatArray(a: Nd, shape: seq<nat>, maxLen: int, prefix: string, separator: string,
                       edge: nat, summaryInsert: string): (r: string)
    requires Regular(a, shape) && Positive(shape)
    ensures shape == [] ==> r == a.word + "\n"
    ensures shape != [] ==> |r| >= 3 && r[0] == '[' && r[|r| - 2..] == "]\n"
    decreases a
  {
    if shape == [] then a.word + "\n"
    else if |shape| == 1 then
      Rank1Scalars(a, shape);
      FormatRank1(Words(a.items), separator, maxLen, prefix, edge, summaryInsert)
    else
      var items := a.items;
      assert Positive(shape[1..]);
      var sub := seq(|items|, i requires 0 <= i < |items| =>
        FormatArray(items[i], shape[1..], maxLen, " " + prefix, separator, edge, summaryInsert));
      Nest(sub, |shape|, prefix, separator, edge, summaryInsert)
  }

  lemma Rank1Scalars(a: Nd, shape: seq<nat>)
    requires Regular(a, shape) && |shape| == 1
    ensures a.Dim? && forall i :: 0 <= i < |a.items| ==> a.items[i].Scalar?
  {
    assert shape[1..] == [];
    forall i | 0 <= i < |a.items| ensures a.items[i].Scalar? {
      assert Regular(a.items[i], shape[1..]);
    }
  }

  /** Why printing raises: `concatenate` of nothing in `_leading_trailing`,
      or `len` of a 0-d array there. */
  datatype PrintError = ConcatFailed(cause: ConcatError) | Unsized

  /** `array2string` after the options are merged: an empty array is
      `[]`; otherwise an array with more elements than the threshold is
      summarised, its data gathered by `_leading_trailing` with the global
      `edgeitems` (`globalEdge`) while `_formatArray` uses the merged one
      (`edge`), and the final newline is dropped. */
  function Array2String(a: Nd, shape: seq<nat>, threshold: int, linewidth: int, edge: nat, globalEdge: nat,
                        separator: string, prefix: string, variant: Variant): (r: Result<string, PrintError>)
    requires Regular(a, shape)
    ensures Product(shape) == 0 ==> r == Ok("[]")
    ensures r.Err? <==> 0 < Product(shape) && threshold < Product(shape)
                        && (shape == [] || (variant == AsWritten && globalEdge == 0 && |shape| >= 2))
    ensures r == Err(Unsized) <==> shape == [] && threshold < 1
    ensures r.Ok? && shape == [] ==> r.value == a.word
    ensures r.Ok? && Product(shape) > 0 && shape != [] ==>
              |r.value| >= 2 && r.value[0] == '[' && r.value[|r.value| - 1] == ']'
  {
    if Product(shape) == 0 then Ok("[]")
    else
      ProductPositive(shape);
      var summarised := Product(shape) > threshold;
      var data: Result<(), PrintError> := if summarised then LeadingTrailingData(a, shape, globalEdge, variant) else Ok(());
      if data.Err? then Err(data.error)
      else
        var summaryInsert := if summarised then "..., " else "";
        var text := FormatArray(a, shape, linewidth, " " + Spaces(|prefix|), separator, edge, summaryInsert);
        Ok(text[..|text| - 1])
  }

  /** Whether `_leading_trailing` can gather the data of a summarised
      array: `len` fails on a 0-d array, `concatenate` as described below. */
  function LeadingTrailingData(a: Nd, shape: seq<nat>, edge: nat, variant: Variant): (r: Result<(), PrintError>)
    requires Regular(a, shape) && Positive(shape)
    ensures r.Err? <==> shape == [] || (variant == AsWritten && edge == 0 && |shape| >= 2)
    ensures r == Err(Unsized) <==> shape == []
  {
    if shape == [] then Err(Unsized)
    else
      LeadingTrailingFails(a, shape, edge, variant);
      match LeadingTrailing(a, shape, edge, variant)
      case Err(e) => Err(ConcatFailed(e))
      case Ok(_) => Ok(())
  }

  /** Printing a summarised array of two or more dimensions with
      `edgeitems=0` set globally raises from `concatenate` as written, and
      prints as intended. */
  lemma Array2StringEdgeZero(a: Nd, shape: seq<nat>, threshold: int, linewidth: int, edge: nat,
                             separator: string, prefix: string)
    requires Regular(a, shape) && |shape| >= 2 && Positive(shape) && threshold < Product(shape)
    ensures Array2String(a, shape, threshold, linewidth, edge, 0, separator, prefix, AsWritten)
              == Err(ConcatFailed(NeedAtLeastOneArray))
    ensures Array2String(a, shape, threshold, linewidth, edge, 0, separator, prefix, Intended).Ok?
  {
    ProductPositive(shape);
    LeadingTrailingFailsAboveRank1(a, shape);
  }

  /** `_leading_trailing` fails exactly as written, with no edge items, on
      two or more dimensions. */
  lemma LeadingTrailingFails(a: Nd, shape: seq<nat>, edge: nat, variant: Variant)
    requires Regular(a, shape) && |shape| >= 1 && Positive(shape)
    ensures LeadingTrailing(a, shape, edge, variant).Err? <==> variant == AsWritten && edge == 0 && |shape| >= 2
  {
    LeadingTrailingIntended(a, shape, edge);
    if variant == AsWritten {
      if edge >= 1 {
        LeadingTrailingAgrees(a, shape, edge);
      } else if |shape| >= 2 {
        LeadingTrailingFailsAboveRank1(a, shape);
      }
    }
  }

  function Spaces(n: nat): (r: string)
    ensures |r| == n && forall i :: 0 <= i < n ==> r[i] == ' '
  {
    if n == 0 then "" else " " + Spaces(n - 1)
  }

  /** A one-dimensional array below the threshold whose words fit on one
      line prints as its words joined by the separator, in brackets. */
  lemma Array2StringOneLine(items: seq<Nd>, threshold: int, linewidth: int, edge: nat, globalEdge: nat,
                            separator: string, prefix: string, variant: Variant)
    requires |items| >= 1 && |items| <= threshold
    requires forall i :: 0 <= i < |items| ==> items[i].Scalar?
    requires var words := Words(items);
      1 + |prefix| + TotalLength(WithSeparator(words[..|words| - 1], separator)) + |words[|words| - 1]| < linewidth
    ensures Array2String(Dim(items), [|items|], threshold, linewidth, edge, globalEdge, separator, prefix, variant)
              == Ok("[" + Join(Words(items), separator) + "]")
  {
    var words := Words(items);
    var shape := [|items|];
    var np := " " + Spaces(|prefix|);
    RegularRank1(items);
    SummarisedBeyondThreshold(Dim(items), shape, threshold, linewidth, edge, globalEdge, separator, prefix, variant);
    FormatArrayRank1(Dim(items), shape, linewidth, np, separator, edge, "");
    EdgeIrrelevant(words, separator, linewidth, np, edge);
    OneLine(words, separator, linewidth, np);
    StripNewline(Array2String(Dim(items), shape, threshold, linewidth, edge, globalEdge, separator, prefix, variant).value,
                 Join(words, separator));
  }

  lemma RegularRank1(items: seq<Nd>)
    requires forall i :: 0 <= i < |items| ==> items[i].Scalar?
    ensures Regular(Dim(items), [|items|]) && Positive([|items|]) == (|items| > 0) && Product([|items|]) == |items|
  {
    var shape := [|items|];
    assert shape[..0] == [];
  }

  lemma FormatArrayRank1(a: Nd, shape: seq<nat>, maxLen: int, prefix: string, separator: string,
                         edge: nat, summaryInsert: string)
    requires Regular(a, shape) && Positive(shape) && |shape| == 1
    requires a.Dim? && forall i :: 0 <= i < |a.items| ==> a.items[i].Scalar?
    ensures FormatArray(a, shape, maxLen, prefix, separator, edge, summaryInsert)
              == FormatRank1(Words(a.items), separator, maxLen, prefix, edge, summaryInsert)
  {
  }

  lemma EdgeIrrelevant(words: seq<string>, sep: string, maxLen: int, prefix: string, edge: nat)
    requires |words| >= 1
    ensures FormatRank1(words, sep, maxLen, prefix, edge, "") == FormatRank1(words, sep, maxLen, prefix, 0, "")
  {
  }

  lemma StripNewline(t: string, body: string)
    requires t + "\n" == "[" + body + "]\n"
    ensures t == "[" + body + "]"
  {
    var u := "[" + body + "]";
    assert |t| == |u|;
    forall i | 0 <= i < |t| ensures t[i] == u[i] {
      assert (t + "\n")[i] == (u + "\n")[i];
    }
  }

  /** When the array is summarised depends only on its size. */
  lemma SummarisedBeyondThreshold(a: Nd, shape: seq<nat>, threshold: int, linewidth: int, edge: nat, globalEdge: nat,
                                  separator: string, prefix: string, variant: Variant)
    requires Regular(a, shape) && Positive(shape)
    ensures var r := Array2String(a, shape, threshold, linewidth, edge, globalEdge, separator, prefix, variant);
            r.Ok? ==> r.value + "\n" == FormatArray(a, shape, linewidth, " " + Spaces(|prefix|), separator, edge,
                                                   if Product(shape) > threshold then "..., " else "")
  {
    ProductPositive(shape);
    var text := FormatArray(a, shape, linewidth, " " + Spaces(|prefix|), separator, edge,
                            if Product(shape) > threshold then "..., " else "");
    assert text[..|text| - 1] + "\n" == text;
  }

  // ---------------------------------------------------------------------
  // _leading_trailing

  /** `concatenate` of no arrays raises. */
  datatype ConcatError = NeedAtLeastOneArray

  /** The elements `_formatArray` prints when the array is summarised:
      in every dimension the items of `ShownItems`. */
  function Printed(a: Nd, shape: seq<nat>, edge: nat): (r: seq<string>)
    requires Regular(a, shape) && |shape| >= 1 && Positive(shape)
    decreases a
  {
    var sm := Summarize(|a.items|, edge, "..., ");
    if |shape| == 1 then
      Rank1Scalars(a, shape);
      ShownItems(Words(a.items), sm)
    else
      assert Positive(shape[1..]);
      var parts := seq(|a.items|, i requires 0 <= i < |a.items| => Printed(a.items[i], shape[1..], edge));
      Flatten(ShownItems(parts, sm))
  }

  function Flatten(parts: seq<seq<string>>): seq<string> {
    if parts == [] then [] else parts[0] + Flatten(parts[1..])
  }

  /** All parts, or the first error among them. */
  function Collect(parts: seq<Result<seq<string>, ConcatError>>): Result<seq<string>, ConcatError> {
    if parts == [] then Ok([])
    else if parts[0].Err? then Err(parts[0].error)
    else
      var rest :- Collect(parts[1..]);
      Ok(parts[0].value + rest)
  }

  function Concatenate(parts: seq<Result<seq<string>, ConcatError>>): (r: Result<seq<string>, ConcatError>)
    ensures parts == [] ==> r == Err(NeedAtLeastOneArray)
  {
    if parts == [] then Err(NeedAtLeastOneArray) else Collect(parts)
  }

  /** The first `edge` items and the last `back`, when there are more than
      `2 * edge`; otherwise all of them. */
  function Select<T>(xs: seq<T>, edge: nat, back: nat): seq<T>
    requires back <= |xs|
  {
    if |xs| > 2 * edge then xs[..edge] + xs[|xs| - back..] else xs
  }

  function Max1(n: nat): nat {
    if n == 0 then 1 else n
  }

  /** How many items from the back `_leading_trailing` keeps. As written,
      `a[-edgeitems:]` is the whole array for `edgeitems == 0`, and the
      loop over `range(edgeitems, 0, -1)` keeps none; as intended, the
      items `_formatArray` prints, which always include the last one. */
  function Back(n: nat, edge: nat, rank1: bool, variant: Variant): (k: nat)
    requires n >= 1 && n > 2 * edge
    ensures k <= n
  {
    match variant
    case AsWritten => if rank1 && edge == 0 then n else edge
    case Intended => Max1(edge)
  }

  /** `_leading_trailing`: the data from which the format functions are
      chosen when the array is summarised. */
  function LeadingTrailing(a: Nd, shape: seq<nat>, edge: nat, variant: Variant): Result<seq<string>, ConcatError>
    requires Regular(a, shape) && |shape| >= 1 && Positive(shape)
    decreases a
  {
    var n := |a.items|;
    if |shape| == 1 then
      Rank1Scalars(a, shape);
      var words := Words(a.items);
      Ok(if n > 2 * edge then Select(words, edge, Back(n, edge, true, variant)) else words)
    else
      assert Positive(shape[1..]);
      var parts := seq(n, i requires 0 <= i < n => LeadingTrailing(a.items[i], shape[1..], edge, variant));
      Concatenate(if n > 2 * edge then Select(parts, edge, Back(n, edge, false, variant)) else parts)
  }

  /** As intended, the data are exactly the printed elements. */
  lemma {:induction false} LeadingTrailingIntended(a: Nd, shape: seq<nat>, edge: nat)
    requires Regular(a, shape) && |shape| >= 1 && Positive(shape)
    ensures LeadingTrailing(a, shape, edge, Intended) == Ok(Printed(a, shape, edge))
    decreases a
  {
    var n := |a.items|;
    var sm := Summarize(n, edge, "..., ");
    if |shape| == 1 {
      Rank1Scalars(a, shape);
      SelectIsShown(Words(a.items), edge);
    } else {
      assert Positive(shape[1..]);
      var parts := seq(n, i requires 0 <= i < n => LeadingTrailing(a.items[i], shape[1..], edge, Intended));
      var printed := seq(n, i requires 0 <= i < n => Printed(a.items[i], shape[1..], edge));
      forall i | 0 <= i < n ensures parts[i] == Ok(printed[i]) {
        LeadingTrailingIntended(a.items[i], shape[1..], edge);
      }
      NestedIntended(parts, printed, edge);
    }
  }

  lemma NestedIntended(parts: seq<Result<seq<string>, ConcatError>>, printed: seq<seq<string>>, edge: nat)
    requires |parts| == |printed| >= 1
    requires forall i :: 0 <= i < |parts| ==> parts[i] == Ok(printed[i])
    ensures Concatenate(if |parts| > 2 * edge then Select(parts, edge, Max1(edge)) else parts)
              == Ok(Flatten(ShownItems(printed, Summarize(|printed|, edge, "..., "))))
  {
    var chosen := if |parts| > 2 * edge then Select(parts, edge, Max1(edge)) else parts;
    SelectIsShown(printed, edge);
    SelectPointwise(parts, printed, edge, Max1(edge));
    CollectOk(chosen, ShownItems(printed, Summarize(|printed|, edge, "..., ")));
  }

  /** The selection with at least one item from the back is what
      `_formatArray` shows. */
  lemma SelectIsShown<T>(xs: seq<T>, edge: nat)
    requires |xs| >= 1
    ensures (if |xs| > 2 * edge then Select(xs, edge, Max1(edge)) else xs)
              == ShownItems(xs, Summarize(|xs|, edge, "..., "))
  {
    var n := |xs|;
    var sm := Summarize(n, edge, "..., ");
    if n > 2 * edge {
      assert sm == Summary(edge, edge, "..., ");
      ShownEdges(xs, sm);
      if edge == 0 {
        assert xs[..0] + xs[n - 1..] == [xs[n - 1]];
      }
    } else {
      assert sm == Summary(0, n, "");
      ShownAll(xs, sm);
    }
  }

  lemma SelectPointwise<U>(rs: seq<Result<U, ConcatError>>, xs: seq<U>, edge: nat, back: nat)
    requires |rs| == |xs| >= 1 && (|xs| > 2 * edge ==> back <= |xs|)
    requires forall i :: 0 <= i < |rs| ==> rs[i] == Ok(xs[i])
    ensures var c := if |rs| > 2 * edge then Select(rs, edge, back) else rs;
            var d := if |xs| > 2 * edge then Select(xs, edge, back) else xs;
            |c| == |d| && forall i :: 0 <= i < |c| ==> c[i] == Ok(d[i])
  {
  }

  lemma {:induction false} CollectOk(rs: seq<Result<seq<string>, ConcatError>>, xs: seq<seq<string>>)
    requires |rs| == |xs| >= 1
    requires forall i :: 0 <= i < |rs| ==> rs[i] == Ok(xs[i])
    ensures Concatenate(rs) == Ok(Flatten(xs))
  {
    CollectAll(rs, xs);
  }

  lemma {:induction false} CollectAll(rs: seq<Result<seq<string>, ConcatError>>, xs: seq<seq<string>>)
    requires |rs| == |xs|
    requires forall i :: 0 <= i < |rs| ==> rs[i] == Ok(xs[i])
    ensures Collect(rs) == Ok(Flatten(xs))
  {
    if rs != [] {
      CollectAll(rs[1..], xs[1..]);
    }
  }

  /** With at least one edge item the code as written agrees with the
      intended one. */
  lemma {:induction false} LeadingTrailingAgrees(a: Nd, shape: seq<nat>, edge: nat)
    requires Regular(a, shape) && |shape| >= 1 && Positive(shape) && edge >= 1
    ensures LeadingTrailing(a, shape, edge, AsWritten) == LeadingTrailing(a, shape, edge, Intended)
    decreases a
  {
    if |shape| > 1 {
      assert Positive(shape[1..]);
      var n := |a.items|;
      var w := seq(n, i requires 0 <= i < n => LeadingTrailing(a.items[i], shape[1..], edge, AsWritten));
      var v := seq(n, i requires 0 <= i < n => LeadingTrailing(a.items[i], shape[1..], edge, Intended));
      forall i | 0 <= i < n ensures w[i] == v[i] {
        LeadingTrailingAgrees(a.items[i], shape[1..], edge);
      }
      assert w == v;
    }
  }

  /** With `edgeitems == 0` the code as written keeps every element of a
      summarised vector, although only the last one is printed. */
  lemma LeadingTrailingKeepsAllAtRank1(a: Nd, n: nat)
    requires Regular(a, [n]) && n >= 1
    ensures LeadingTrailing(a, [n], 0, AsWritten).Ok? && |LeadingTrailing(a, [n], 0, AsWritten).value| == n
    ensures |Printed(a, [n], 0)| == 1
  {
    Rank1Scalars(a, [n]);
    var words := Words(a.items);
    assert Select(words, 0, n) == words by {
      assert words[..0] + words[0..] == words;
    }
    ShownEdges(words, Summary(0, 0, "..., "));
  }

  /** With `edgeitems == 0` the code as written concatenates nothing for a
      summarised array of two or more dimensions, and `concatenate` raises. */
  lemma LeadingTrailingFailsAboveRank1(a: Nd, shape: seq<nat>)
    requires Regular(a, shape) && |shape| >= 2 && Positive(shape)
    ensures LeadingTrailing(a, shape, 0, AsWritten) == Err(NeedAtLeastOneArray)
  {
    assert Positive(shape[1..]);
    var n := |a.items|;
    var parts := seq(n, i requires 0 <= i < n => LeadingTrailing(a.items[i], shape[1..], 0, AsWritten));
    assert Select(parts, 0, 0) == [];
  }

  // ---------------------------------------------------------------------
  // element formats

  /** The word `BoolFormat` uses for True: with a leading blank, so that it
      lines up with "False", for arrays of more than one element; in the
      legacy style for every array that is not 0-d. */
  function TrueWord(legacy: bool, dataShape: seq<nat>): string {
    if legacy then (if dataShape != [] then " True" else "True")
    else if Product(dataShape) > 1 then " True" else "True"
  }

  function BoolWord(legacy: bool, dataShape: seq<nat>, x: bool): (r: string)
    ensures !x <==> r == "False"
    ensures x && !legacy && Product(dataShape) <= 1 ==> r == "True"
    ensures x && legacy && dataShape == [] ==> r == "True"
  {
    if x then TrueWord(legacy, dataShape) else "False"
  }

  /** Words of arrays with more than one element have one width. */
  lemma BoolWordsAlign(legacy: bool, dataShape: seq<nat>)
    requires !legacy && Product(dataShape) > 1
    ensures |BoolWord(legacy, dataShape, true)| == |BoolWord(legacy, dataShape, false)|
  {
  }

  /** Reading a word back after dropping its leading blanks. */
  function LStrip(s: string): (r: string)
    ensures |r| <= |s| && r == s[|s| - |r|..]
    decreases |s|
  {
    if s != [] && IsSpace(s[0]) then LStrip(s[1..]) else s
  }

  function ReadBool(word: string): bool {
    LStrip(word) == "True"
  }

  lemma BoolWordRoundTrip(legacy: bool, dataShape: seq<nat>, x: bool)
    ensures ReadBool(BoolWord(legacy, dataShape, x)) == x
  {
    var w := BoolWord(legacy, dataShape, x);
    if x {
      LStripTrue(w);
    } else {
      assert !IsSpace(w[0]);
    }
  }

  lemma LStripTrue(w: string)
    requires w == " True" || w == "True"
    ensures LStrip(w) == "True"
  {
    if w == " True" {
      assert IsSpace(w[0]) && w[1..] == "True";
    }
    assert !IsSpace("True"[0]);
  }

  /** Python's `s[:-k]`, which is empty when `s` is shorter. */
  function DropLast(s: string, k: nat): string {
    if k <= |s| then s[..|s| - k] else ""
  }

  /** `repr` of a Python tuple whose items read as `items`. */
  function TupleRepr(items: seq<string>): string {
    if |items| == 1 then "(" + items[0] + ",)" else "(" + Join(items, ", ") + ")"
  }

  /** `StructureFormat`: every field followed by ", ", then the trailing
      ", " (or the "," of a one-field record kept) closed with ")". As
      written, a record without fields also loses its "(". */
  function StructureFormat(fields: seq<string>, variant: Variant): string {
    var s := "(" + Concat(WithSeparator(fields, ", "));
    var body := if 1 < |fields| then DropLast(s, 2)
                else if |fields| == 1 || variant == AsWritten then DropLast(s, 1)
                else s;
    body + ")"
  }

  /** Records print as tuples. */
  lemma StructureFormatIsTuple(fields: seq<string>)
    ensures StructureFormat(fields, Intended) == TupleRepr(fields)
    ensures |fields| >= 1 ==> StructureFormat(fields, AsWritten) == TupleRepr(fields)
  {
    var n := |fields|;
    var s := "(" + Concat(WithSeparator(fields, ", "));
    if n == 0 {
      assert s == "(";
    } else if n == 1 {
      assert WithSeparator(fields, ", ") == [fields[0] + ", "];
      assert Concat([fields[0] + ", "]) == fields[0] + ", " + Concat([]);
      assert s == "(" + fields[0] + ", ";
      assert DropLast(s, 1) == "(" + fields[0] + ",";
    } else {
      SeparatedIsJoined(fields, ", ");
      assert s == "(" + Join(fields, ", ") + ", ";
      assert DropLast(s, 2) == "(" + Join(fields, ", ");
    }
  }

  /** As written, a record of no fields prints as ")". */
  lemma StructureFormatNoFields()
    ensures StructureFormat([], AsWritten) == ")"
    ensures TupleRepr([]) == "()"
  {
    assert StructureFormat([], AsWritten) == DropLast("(", 1) + ")";
  }

  lemma {:induction false} WithSeparatorAppend(a: seq<string>, b: seq<string>, sep: string)
    ensures WithSeparator(a + b, sep) == WithSeparator(a, sep) + WithSeparator(b, sep)
  {
    var l, r := WithSeparator(a + b, sep), WithSeparator(a, sep) + WithSeparator(b, sep);
    assert |l| == |r|;
    forall i | 0 <= i < |l| ensures l[i] == r[i] {
      if i < |a| {
        assert (a + b)[i] == a[i];
      } else {
        assert (a + b)[i] == b[i - |a|];
      }
    }
  }

  /** Every word followed by the separator is the joined words and one
      more separator. */
  lemma SeparatedIsJoined(words: seq<string>, sep: string)
    requires |words| >= 1
    ensures Concat(WithSeparator(words, sep)) == Join(words, sep) + sep
  {
    var n := |words|;
    assert words == words[..n - 1] + [words[n - 1]];
    WithSeparatorAppend(words[..n - 1], [words[n - 1]], sep);
    assert WithSeparator([words[n - 1]], sep) == [words[n - 1] + sep];
    ConcatAppend(WithSeparator(words[..n - 1], sep), [words[n - 1] + sep]);
    assert Concat([words[n - 1] + sep]) == words[n - 1] + sep;
    JoinAsConcat(words, sep);
  }

  // ---------------------------------------------------------------------
  // SubArrayFormat

  /** `SubArrayFormat`: a sub-array field as nested lists, the items
      separated by ", ". */
  function SubArrayFormat(a: Nd, shape: seq<nat>): string
    requires Regular(a, shape) && |shape| >= 1
    decreases a
  {
    var n := |a.items|;
    if |shape| == 1 then
      Rank1Scalars(a, shape);
      "[" + Join(Words(a.items), ", ") + "]"
    else
      "[" + Join(seq(n, i requires 0 <= i < n => SubArrayFormat(a.items[i], shape[1..])), ", ") + "]"
  }

  function Count(s: string, c: char): nat {
    if s == [] then 0 else (if s[0] == c then 1 else 0) + Count(s[1..], c)
  }

  function Sum(xs: seq<nat>): nat {
    if xs == [] then 0 else xs[0] + Sum(xs[1..])
  }

  /** The number of dimensions opened while writing `a`: one per `Dim`. */
  function Opened(a: Nd): nat
    decreases a
  {
    match a
    case Scalar(_) => 0
    case Dim(items) => 1 + Sum(seq(|items|, i requires 0 <= i < |items| => Opened(items[i])))
  }

  predicate NoBrackets(a: Nd)
    decreases a
  {
    match a
    case Scalar(w) => '[' !in w && ']' !in w
    case Dim(items) => forall i :: 0 <= i < |items| ==> NoBrackets(items[i])
  }

  /** Every bracket the format opens it closes: one pair per dimension
      written, when the element words hold no brackets. */
  lemma {:induction false} SubArrayBrackets(a: Nd, shape: seq<nat>, c: char)
    requires Regular(a, shape) && |shape| >= 1 && NoBrackets(a) && (c == '[' || c == ']')
    ensures Count(SubArrayFormat(a, shape), c) == Opened(a)
    decreases a
  {
    var n := |a.items|;
    var counts := seq(n, i requires 0 <= i < n => Opened(a.items[i]));
    if |shape| == 1 {
      Rank1Scalars(a, shape);
      var words := Words(a.items);
      var wc := seq(n, i requires 0 <= i < n => Count(words[i], c));
      forall i | 0 <= i < n ensures wc[i] == 0 && counts[i] == 0 {
        assert NoBrackets(a.items[i]);
        CountAbsent(words[i], c);
      }
      SumZeros(wc);
      SumZeros(counts);
      CountJoin(words, ", ", c);
      CountBrackets(Join(words, ", "), c);
    } else {
      var subs := seq(n, i requires 0 <= i < n => SubArrayFormat(a.items[i], shape[1..]));
      var sc := seq(n, i requires 0 <= i < n => Count(subs[i], c));
      forall i | 0 <= i < n ensures sc[i] == counts[i] {
        assert NoBrackets(a.items[i]);
        SubArrayBrackets(a.items[i], shape[1..], c);
      }
      assert sc == counts;
      CountJoin(subs, ", ", c);
      CountBrackets(Join(subs, ", "), c);
    }
  }

  lemma CountBrackets(inner: string, c: char)
    requires c == '[' || c == ']'
    ensures Count("[" + inner + "]", c) == 1 + Count(inner, c)
  {
    CountAppend("[", inner + "]", c);
    CountAppend(inner, "]", c);
    assert ("[" + inner + "]") == "[" + (inner + "]");
  }

  lemma {:induction false} CountAppend(a: string, b: string, c: char)
    ensures Count(a + b, c) == Count(a, c) + Count(b, c)
  {
    if a == [] {
      assert a + b == b;
    } else {
      assert (a + b)[1..] == a[1..] + b;
      CountAppend(a[1..], b, c);
    }
  }

  lemma {:induction false} CountAbsent(s: string, c: char)
    requires c !in s
    ensures Count(s, c) == 0
  {
    if s != [] {
      CountAbsent(s[1..], c);
    }
  }

  lemma {:induction false} SumZeros(xs: seq<nat>)
    requires forall i :: 0 <= i < |xs| ==> xs[i] == 0
    ensures Sum(xs) == 0
  {
    if xs != [] {
      SumZeros(xs[1..]);
    }
  }

  /** The separator ", " adds no brackets to a join. */
  lemma {:induction false} CountJoin(parts: seq<string>, sep: string, c: char)
    requires sep == ", " && (c == '[' || c == ']')
    ensures Count(Join(parts, sep), c) == Sum(seq(|parts|, i requires 0 <= i < |parts| => Count(parts[i], c)))
  {
    var counts := seq(|parts|, i requires 0 <= i < |parts| => Count(parts[i], c));
    if |parts| == 1 {
      assert Sum(counts) == counts[0] + Sum([]);
    } else if |parts| > 1 {
      var rest := seq(|parts| - 1, i requires 0 <= i < |parts| - 1 => Count(parts[1..][i], c));
      CountJoin(parts[1..], sep, c);
      assert counts[1..] == rest;
      CountAppend(parts[0] + sep, Join(parts[1..], sep), c);
      CountAppend(parts[0], sep, c);
      assert Count(sep, c) == 0 by {
        CountAbsent(sep, c);
      }
    }
  }

  // ---------------------------------------------------------------------
  // array_repr

  predicate IsAlpha(c: char) {
    'a' <= c <= 'z' || 'A' <= c <= 'Z'
  }

  predicate IsAlnum(c: char) {
    IsAlpha(c) || '0' <= c <= '9'
  }

  /** The dtype name in a repr: quoted unless it is a plain identifier-like
      word (so "complex128" stays bare and "datetime64[ns]" is quoted). */
  function QuoteTypename(name: string): (r: string)
    ensures r == name || r == "'" + name + "'"
    ensures r == name <==> name == [] || (IsAlpha(name[0]) && forall i :: 0 <= i < |name| ==> IsAlnum(name[i]))
  {
    if name != [] && !(IsAlpha(name[0]) && forall i :: 0 <= i < |name| ==> IsAlnum(name[i])) then "'" + name + "'"
    else name
  }

  function Unquote(s: string): string {
    if |s| >= 2 && s[0] == '\'' && s[|s| - 1] == '\'' then s[1..|s| - 1] else s
  }

  /** The quotes can always be taken off again. */
  lemma QuoteRoundTrip(name: string)
    ensures Unquote(QuoteTypename(name)) == name
  {
    var q := "'" + name + "'";
    if QuoteTypename(name) == q && q != name {
      assert q[1..|q| - 1] == name;
    }
  }

  /** What `array2string` prints, or `[], shape=...` for an empty array of
      any shape but `(0,)`. */
  function ReprList(shape: seq<nat>, listed: string): (r: string)
    ensures Product(shape) > 0 || shape == [0] ==> r == listed
  {
    if Product(shape) > 0 || shape == [0] then listed
    else "[], shape=" + TupleRepr(seq(|shape|, i requires 0 <= i < |shape| => Pep3118.Decimal(shape[i])))
  }

  /** The dtype of the repr: the name, or for a flexible dtype its `str`,
      quoted unless it has field names. */
  datatype DtypeText = DtypeText(typeless: bool, name: string, flexible: bool, hasNames: bool, str: string)

  /** `array_repr` around the listed elements: the dtype is left out for
      the default integer, float and complex types of a non-empty array;
      a flexible dtype goes on its own line below the opening parenthesis. */
  function ReprSuffix(className: string, shape: seq<nat>, listed: string, d: DtypeText): (r: string)
  {
    var lst := ReprList(shape, listed);
    if d.typeless && Product(shape) > 0 then className + "(" + lst + ")"
    else
      var typename := if d.flexible then (if d.hasNames then d.str else "'" + d.str + "'") else QuoteTypename(d.name);
      var lf := if d.flexible then "\n" + Spaces(|className| + 1) else " ";
      className + "(" + lst + "," + lf + DtypeTail(typename)
  }

  function DtypeTail(typename: string): (r: string)
    ensures |r| == |typename| + 7
  {
    "dtype=" + typename + ")"
  }

  lemma EndsWith(head: string, tail: string)
    ensures (head + tail)[|head + tail| - |tail|..] == tail
  {
  }

  /** The repr of a non-empty array of a default type is the class name
      around the elements; any other repr ends with the dtype name, which
      reads back from it. */
  lemma ReprShowsDtype(className: string, shape: seq<nat>, listed: string, d: DtypeText)
    requires !d.flexible
    ensures var r := ReprSuffix(className, shape, listed, d);
            d.typeless && Product(shape) > 0 ==> r == className + "(" + listed + ")"
    ensures var r := ReprSuffix(className, shape, listed, d);
            !(d.typeless && Product(shape) > 0) ==>
              exists q :: |q| + 7 <= |r| && r[|r| - |q| - 7..] == DtypeTail(q) && Unquote(q) == d.name
  {
    if !(d.typeless && Product(shape) > 0) {
      var q := QuoteTypename(d.name);
      QuoteRoundTrip(d.name);
      var head := className + "(" + ReprList(shape, listed) + "," + " ";
      var r := head + DtypeTail(q);
      assert ReprSuffix(className, shape, listed, d) == r;
      EndsWith(head, DtypeTail(q));
    }
  }
}
