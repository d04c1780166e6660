/** The debugger shell's help text: splitting a line of words into indented lines of limited width. */
module LineSplit {
  import opened Options

  /** Sizes are 64 bits wide and wrap around. */
  const SIZE_LIMIT: nat := 0x1_0000_0000_0000_0000

  // ----- Searching a string -----

  /** The last space among the first `n` characters. */
  function LastSpace(s: string, n: nat): (r: Option<nat>)
    requires n <= |s|
    ensures r.Some? ==> r.value < n && s[r.value] == ' '
    ensures forall i :: 0 <= i < n && (r.Some? ==> r.value < i) ==> s[i] != ' '
    decreases n
  {
    if n == 0 then None else if s[n - 1] == ' ' then Some(n - 1) else LastSpace(s, n - 1)
  }

  /** The last character among the first `n` that is not a space. */
  function LastInWord(s: string, n: nat): (r: Option<nat>)
    requires n <= |s|
    ensures r.Some? ==> r.value < n && s[r.value] != ' '
    ensures forall i :: 0 <= i < n && (r.Some? ==> r.value < i) ==> s[i] == ' '
    decreases n
  {
    if n == 0 then None else if s[n - 1] != ' ' then Some(n - 1) else LastInWord(s, n - 1)
  }

  /** The first character from `k` on that is not a space. */
  function NextInWord(s: string, k: nat): (r: Option<nat>)
    requires k <= |s|
    ensures r.Some? ==> k <= r.value < |s| && s[r.value] != ' '
    ensures forall i :: k <= i < (if r.Some? then r.value else |s|) ==> s[i] == ' '
    decreases |s| - k
  {
    if k == |s| then None else if s[k] != ' ' then Some(k) else NextInWord(s, k + 1)
  }

  function Spaces(n: nat): (s: string)
    ensures |s| == n && forall i :: 0 <= i < n ==> s[i] == ' '
  {
    seq(n, i => ' ')
  }

  // ----- One cut -----

  /** What one round prints and leaves over; `hyphen` when it broke a word or found none to print. */
  datatype Cut = Cut(line: string, rest: string, hyphen: bool)

  /** How many characters go before a hyphen. */
  function HyphenAt(input: string, width: nat): nat {
    if width == 0 then |input| else width - 1
  }

  function CutLine(input: string, width: nat): (c: Cut)
    requires |input| > width
    ensures |c.rest| < |input|
  {
    var broken := input[..HyphenAt(input, width)] + "-";
    match LastSpace(input, if width == 0 then |input| else width)
    case None => Cut(broken, "", true)
    case Some(p) =>
      var q := NextInWord(input, p);
      var rest := if q.Some? then input[q.value..] else "";
      var e := LastInWord(input, p + 1);
      if e.Some? then Cut(input[..e.value + 1], rest, false) else Cut(broken, rest, true)
  }

  // ----- The whole text -----

  /** A stretch of output; all but a last unsplit one end with a line break. */
  datatype Line = Line(text: string, ended: bool)

  /** Lines after the first are indented, which narrows them. */
  function Narrow(width: nat, indent: nat): nat
    requires indent < SIZE_LIMIT
  {
    if indent <= width then width - indent else width + SIZE_LIMIT - indent
  }

  /** The subtraction is done in the machine's unsigned size type. */
  lemma {:induction false} NarrowWraps(width: nat, indent: nat)
    requires width < SIZE_LIMIT && indent < SIZE_LIMIT
    ensures Narrow(width, indent) == (width - indent) % SIZE_LIMIT
    ensures indent + Narrow(width, indent) == if indent <= width then width else width + SIZE_LIMIT
  {
    if indent <= width {
      assert (width - indent) % SIZE_LIMIT == width - indent;
    } else {
      assert width - indent == (width + SIZE_LIMIT - indent) + SIZE_LIMIT * -1;
    }
  }

  function Lines(input: string, width: nat, indent: nat, first: bool): seq<Line>
    requires indent < SIZE_LIMIT
    decreases |input|
  {
    var pad := if first then "" else Spaces(indent);
    if |input| <= width then (if input == "" then [] else [Line(pad + input, false)])
    else
      var c := CutLine(input, width);
      [Line(pad + c.line, true)] + Lines(c.rest, if first then Narrow(width, indent) else width, indent, false)
  }

  function Render(lines: seq<Line>): string
    decreases |lines|
  {
    if lines == [] then ""
    else lines[0].text + (if lines[0].ended then "\n" else "") + Render(lines[1..])
  }

  lemma {:induction false} RenderAppends(lines: seq<Line>, more: seq<Line>)
    ensures Render(lines + more) == Render(lines) + Render(more)
    decreases |lines|
  {
    if lines == [] {
      assert lines + more == more;
    } else {
      RenderAppends(lines[1..], more);
      var head := lines[0].text + (if lines[0].ended then "\n" else "");
      assert (lines + more)[1..] == lines[1..] + more;
      assert head + (Render(lines[1..]) + Render(more)) == (head + Render(lines[1..])) + Render(more);
    }
  }

  /** One round of the loop moves one line from what is left to what is done. */
  lemma CutMoves(done: seq<Line>, input: string, width: nat, indent: nat, first: bool)
    requires indent < SIZE_LIMIT && |input| > width
    ensures var c := CutLine(input, width);
            var line := Line((if first then "" else Spaces(indent)) + c.line, true);
            done + Lines(input, width, indent, first)
            == (done + [line]) + Lines(c.rest, if first then Narrow(width, indent) else width, indent, false)
  {
  }

  lemma LastMoves(input: string, width: nat, indent: nat, first: bool)
    requires indent < SIZE_LIMIT && |input| <= width
    ensures Lines(input, width, indent, first) ==
      if input == "" then [] else [Line((if first then "" else Spaces(indent)) + input, false)]
  {
  }

  /** The loop of the original; it ends for every width and indentation. */
  method SplitToMultipleLines(str: string, maxWidth: nat, indent: nat) returns (ret: string)
    requires indent < SIZE_LIMIT
    ensures ret == Render(Lines(str, maxWidth, indent, true))
  {
    hide Render, Lines, CutLine, Narrow;
    var isFirst, input, width := true, str, maxWidth;
    ghost var done: seq<Line> := [];
    ret := "";
    RenderNothing();
    while |input| > width
      invariant ret == Render(done)
      invariant done + Lines(input, width, indent, isFirst) == Lines(str, maxWidth, indent, true)
      decreases |input|
    {
      var c := CutOnce(input, width);
      ghost var line := Line((if isFirst then "" else Spaces(indent)) + c.line, true);
      RenderLine(done, line);
      CutMoves(done, input, width, indent, isFirst);
      if !isFirst {
        ret := ret + Spaces(indent);
      }
      ret := ret + c.line + "\n";
      done := done + [line];
      input := c.rest;
      if isFirst {
        isFirst := false;
        width := Narrow(width, indent);
      }
    }
    LastMoves(input, width, indent, isFirst);
    assert done + [] == done && "" + input == input;
    if input != "" {
      RenderLine(done, Line((if isFirst then "" else Spaces(indent)) + input, false));
      if !isFirst {
        ret := ret + Spaces(indent);
      }
      ret := ret + input;
    }
  }

  lemma RenderNothing()
    ensures Render([]) == ""
  {
  }

  lemma RenderLine(lines: seq<Line>, line: Line)
    ensures Render(lines + [line]) == Render(lines) + (line.text + (if line.ended then "\n" else ""))
  {
    RenderAppends(lines, [line]);
    assert [line][1..] == [];
    RenderNothing();
  }

  /** The cut of one round, with the searches in the order of the original. */
  method CutOnce(input: string, width: nat) returns (c: Cut)
    requires |input| > width
    ensures c == CutLine(input, width)
  {
    var needHyphen := false;
    var posBreakAfter: Option<nat> := None;
    var posSpace := LastSpace(input, if width == 0 then |input| else width);
    if posSpace.Some? {
      posBreakAfter := LastInWord(input, posSpace.value + 1);
    }
    var line := "";
    if posBreakAfter.None? {
      needHyphen := true;
      line := input[..HyphenAt(input, width)] + "-";
    } else {
      line := input[..posBreakAfter.value + 1];
    }
    var posNextWord: Option<nat> := None;
    if posSpace.Some? {
      posNextWord := NextInWord(input, posSpace.value);
    }
    c := Cut(line, if posNextWord.Some? then input[posNextWord.value..] else "", needHyphen);
  }

  // ----- Width -----

  /** No line is wider than the limit. */
  ghost predicate AllWithin(lines: seq<Line>, width: nat) {
    forall i :: 0 <= i < |lines| ==> |lines[i].text| <= width
  }

  lemma {:induction false} LinesAreWithin(input: string, width: nat, indent: nat, first: bool, limit: nat)
    requires indent < SIZE_LIMIT && width >= 1 && indent < limit
    requires if first then width == limit else width == limit - indent
    ensures AllWithin(Lines(input, width, indent, first), limit)
    decreases |input|
  {
    if |input| > width {
      var c := CutLine(input, width);
      LinesAreWithin(c.rest, if first then Narrow(width, indent) else width, indent, false, limit);
    }
  }

  /** The width promised for a real width and a smaller indentation. */
  lemma WidthIsKept(str: string, maxWidth: nat, indent: nat)
    requires indent < SIZE_LIMIT && maxWidth >= 1 && indent < maxWidth
    ensures AllWithin(Lines(str, maxWidth, indent, true), maxWidth)
  {
    LinesAreWithin(str, maxWidth, indent, true, maxWidth);
  }

  /** A line of `n` letters. */
  function Letters(n: nat): string {
    seq(n, i => 'a')
  }

  /** Otherwise some text gets a line that is too wide. */
  lemma SomeLineTooWide(maxWidth: nat, indent: nat) returns (str: string)
    requires indent < SIZE_LIMIT && maxWidth <= indent
    ensures !AllWithin(Lines(str, maxWidth, indent, true), maxWidth)
  {
    if maxWidth == 0 {
      str := "a";
      assert LastSpace(str, 1).None?;
      assert Lines(str, 0, indent, true)[0].text == "" + (str[..1] + "-");
    } else {
      // A first line that leaves a second one over.
      str := (if maxWidth == 1 then " " else "a ") + Letters(maxWidth);
      CutLeavesLetters(maxWidth);
      SecondLineTooWide(CutLine(str, maxWidth).rest, Narrow(maxWidth, indent), indent, maxWidth);
      var lines := Lines(str, maxWidth, indent, true);
      assert lines[1..] == Lines(CutLine(str, maxWidth).rest, Narrow(maxWidth, indent), indent, false);
      assert lines[1] == lines[1..][0];
    }
  }

  lemma CutLeavesLetters(width: nat)
    requires width >= 1
    ensures var str := (if width == 1 then " " else "a ") + Letters(width);
      |str| > width && CutLine(str, width).rest == Letters(width)
  {
    var str := (if width == 1 then " " else "a ") + Letters(width);
    var p := if width == 1 then 0 else 1;
    assert str[p] == ' ' && forall i :: p < i < |str| ==> str[i] == 'a';
    assert LastSpace(str, width) == Some(p);
    assert NextInWord(str, p) == Some(p + 1);
    assert str[p + 1..] == Letters(width);
  }

  lemma SecondLineTooWide(rest: string, width: nat, indent: nat, limit: nat)
    requires indent < SIZE_LIMIT && limit <= indent && rest != ""
    ensures var lines := Lines(rest, width, indent, false); |lines| > 0 && |lines[0].text| > limit
  {
    if |rest| > width {
      var c := CutLine(rest, width);
      assert |c.line| > 0;
    }
  }

  /** Every text keeps within the width exactly when the indentation is smaller. */
  lemma WidthKeptIffIndentSmaller(maxWidth: nat, indent: nat)
    requires indent < SIZE_LIMIT
    ensures indent < maxWidth <==> forall str :: AllWithin(Lines(str, maxWidth, indent, true), maxWidth)
  {
    if indent < maxWidth {
      forall str
        ensures AllWithin(Lines(str, maxWidth, indent, true), maxWidth)
      {
        WidthIsKept(str, maxWidth, indent);
      }
    } else {
      var str := SomeLineTooWide(maxWidth, indent);
      assert !AllWithin(Lines(str, maxWidth, indent, true), maxWidth);
    }
  }

  // ----- Words -----

  /** Length of the word that the string starts with. */
  function WordLength(s: string): (n: nat)
    ensures n <= |s| && (forall i :: 0 <= i < n ==> s[i] != ' ') && (n < |s| ==> s[n] == ' ')
    decreases |s|
  {
    if s == "" || s[0] == ' ' then 0 else 1 + WordLength(s[1..])
  }

  /** The words of a line, separated by spaces. */
  function Words(s: string): seq<string>
    decreases |s|
  {
    if s == "" then []
    else if s[0] == ' ' then Words(s[1..])
    else [s[..WordLength(s)]] + Words(s[WordLength(s)..])
  }

  lemma {:induction false} LeadingSpaces(s: string, k: nat)
    requires k <= |s| && forall i :: 0 <= i < k ==> s[i] == ' '
    ensures Words(s) == Words(s[k..])
    decreases k
  {
    if k == 0 {
      assert s[0..] == s;
    } else {
      LeadingSpaces(s[1..], k - 1);
      assert s[1..][k - 1..] == s[k..];
    }
  }

  lemma {:induction false} WordLengthOfPrefix(a: string, b: string)
    requires a != "" && a[0] != ' ' && (b == "" || b[0] == ' ')
    ensures WordLength(a + b) == WordLength(a) > 0
    decreases |a|
  {
    assert (a + b)[1..] == a[1..] + b;
    if |a| > 1 && a[1] != ' ' {
      WordLengthOfPrefix(a[1..], b);
    } else if |a| == 1 {
      assert a[1..] + b == b;
    }
  }

  lemma FirstWord(s: string)
    requires s != "" && s[0] != ' '
    ensures Words(s) == [s[..WordLength(s)]] + Words(s[WordLength(s)..])
  {
  }

  lemma SpaceFirst(s: string)
    requires s != "" && s[0] == ' '
    ensures Words(s) == Words(s[1..])
  {
  }

  /** A cut in front of a space cuts no word. */
  lemma {:induction false} WordsOfBoth(a: string, b: string)
    requires b == "" || b[0] == ' '
    ensures Words(a + b) == Words(a) + Words(b)
    decreases |a|
  {
    hide Words, WordLength;
    if a == "" {
      NoWords();
      assert a + b == b && [] + Words(b) == Words(b);
    } else if a[0] == ' ' {
      WordsOfBoth(a[1..], b);
      SpaceFirst(a);
      SpaceFirst(a + b);
      assert (a + b)[1..] == a[1..] + b;
    } else {
      var n := WordLength(a);
      WordLengthOfPrefix(a, b);
      FirstWord(a);
      FirstWord(a + b);
      WordsOfBoth(a[n..], b);
      assert (a + b)[..n] == a[..n] && (a + b)[n..] == a[n..] + b;
    }
  }

  lemma GapKeepsWords(s: string, e: nat, k: nat)
    requires e < k <= |s| && forall i :: e <= i < k ==> s[i] == ' '
    ensures Words(s) == Words(s[..e]) + Words(s[k..])
  {
    hide Words;
    var tail := s[e..];
    assert s == s[..e] + tail;
    WordsOfBoth(s[..e], tail);
    LeadingSpaces(tail, k - e);
    assert tail[k - e..] == s[k..];
  }

  /** A cut without a hyphen leaves out only spaces. */
  lemma CutAtGap(input: string, width: nat) returns (e: nat, k: nat)
    requires |input| > width && !CutLine(input, width).hyphen
    ensures e < k <= |input| && CutLine(input, width) == Cut(input[..e], input[k..], false)
    ensures forall i :: e <= i < k ==> input[i] == ' '
  {
    var p := LastSpace(input, if width == 0 then |input| else width).value;
    var q := NextInWord(input, p);
    e := LastInWord(input, p + 1).value + 1;
    k := if q.Some? then q.value else |input|;
    assert input[|input|..] == "";
  }

  lemma CutKeepsWords(input: string, width: nat)
    requires |input| > width && !CutLine(input, width).hyphen
    ensures var c := CutLine(input, width); Words(input) == Words(c.line) + Words(c.rest)
  {
    hide Words, CutLine;
    var e, k := CutAtGap(input, width);
    GapKeepsWords(input, e, k);
  }

  /** The words of all lines in order. */
  function LineWords(lines: seq<Line>): seq<string>
    decreases |lines|
  {
    if lines == [] then [] else Words(lines[0].text) + LineWords(lines[1..])
  }

  lemma PaddedWords(indent: nat, first: bool, s: string)
    ensures Words((if first then "" else Spaces(indent)) + s) == Words(s)
  {
    if first {
      assert "" + s == s;
    } else {
      LeadingSpaces(Spaces(indent) + s, indent);
      assert (Spaces(indent) + s)[indent..] == s;
    }
  }

  lemma NoWords()
    ensures Words("") == []
  {
  }

  lemma OneLine(text: string)
    ensures LineWords([Line(text, false)]) == Words(text)
  {
    assert [Line(text, false)][1..] == [];
  }

  /** The characters that a round looks at for a space. */
  function Searched(input: string, width: nat): nat {
    if width == 0 then |input| else width
  }

  /** The text starts with a word that ends, blanks included, before the width. */
  predicate FirstWordFits(input: string, width: nat) {
    var q := NextInWord(input, 0);
    q.Some? && q.value + WordLength(input[q.value..]) < Searched(input, width)
  }

  /** A round breaks a word, or finds none to print, exactly when the first word does not fit. */
  lemma BreaksIff(input: string, width: nat)
    requires |input| > width
    ensures CutLine(input, width).hyphen <==> !FirstWordFits(input, width)
  {
    var n, q := Searched(input, width), NextInWord(input, 0);
    var p := LastSpace(input, n);
    if q.Some? {
      var e := q.value + WordLength(input[q.value..]);
      assert e < |input| ==> input[q.value..][e - q.value] == input[e] == ' ';
      assert forall i :: q.value <= i < e ==> input[q.value..][i - q.value] == input[i] != ' ';
      if p.Some? {
        assert LastInWord(input, p.value + 1).Some? <==> q.value < p.value;
      }
    }
  }

  predicate EndsInWord(s: string) {
    s != "" && s[|s| - 1] != ' '
  }

  lemma {:induction false} EndingWord(s: string)
    requires EndsInWord(s)
    ensures Words(s) != []
    decreases |s|
  {
    if s[0] == ' ' {
      EndingWord(s[1..]);
    }
  }

  lemma NoSpaceLength(s: string, n: nat)
    requires n <= |s| && (forall i :: 0 <= i < n ==> s[i] != ' ') && (n < |s| ==> s[n] == ' ')
    ensures WordLength(s) == n
  {
    var m := WordLength(s);
    assert m < |s| ==> s[m] == ' ';
    assert n < |s| ==> s[n] == ' ';
  }

  lemma SoleWord(s: string)
    requires s != "" && forall i :: 0 <= i < |s| ==> s[i] != ' '
    ensures Words(s) == [s]
  {
    NoSpaceLength(s, |s|);
    assert s[..|s|] == s && s[|s|..] == "";
  }

  /** No word is longer than the text, and only a text that is one word is as long. */
  lemma {:induction false} WordsWithin(s: string, i: nat)
    requires i < |Words(s)|
    ensures |Words(s)[i]| <= |s|
    ensures |Words(s)[i]| == |s| ==> |Words(s)| == 1 && EndsInWord(s)
    decreases |s|
  {
    hide WordLength;
    if s[0] == ' ' {
      WordsWithin(s[1..], i);
    } else {
      var n := WordLength(s);
      FirstWord(s);
      StartsLong(s);
      if i > 0 {
        WordsWithin(s[n..], i - 1);
      } else if n == |s| {
        assert s[n..] == "";
        NoWords();
      }
    }
  }

  lemma StartsLong(s: string)
    requires s != "" && s[0] != ' '
    ensures WordLength(s) > 0
  {
  }

  /** The word of the text that is printed in front of an added hyphen. */
  function Broken(input: string, width: nat): string
    requires |input| > width
  {
    var h, q := HyphenAt(input, width), NextInWord(input, 0);
    (if q.Some? && q.value < h then input[q.value..h] else "") + "-"
  }

  lemma BrokenIsOneWord(input: string, width: nat)
    requires |input| > width && !FirstWordFits(input, width)
    ensures Words(input[..HyphenAt(input, width)] + "-") == [Broken(input, width)]
  {
    hide Words;
    var h, q := HyphenAt(input, width), NextInWord(input, 0);
    var line, b := input[..h] + "-", Broken(input, width);
    var k := if q.Some? && q.value < h then q.value else h;
    if k < h {
      var e := k + WordLength(input[k..]);
      assert forall i :: k <= i < e ==> input[k..][i - k] == input[i];
      assert h <= e;
    }
    assert line[k..] == b;
    LeadingSpaces(line, k);
    SoleWord(b);
  }

  /**
   What indented lines of this width make of the words of a text that starts with one: words
   shorter than the width are kept; the first other one is cut short, and all after it is lost.
   Only a word that ends the text may fill the width.
   */
  function Reflow(words: seq<string>, width: nat, ends: bool): seq<string>
    decreases |words|
  {
    if words == [] then []
    else if width == 0 then (if ends then words[..|words| - 1] + [words[|words| - 1] + "-"] else words)
    else if |words[0]| < width || (|words[0]| == width && |words| == 1 && ends) then
      [words[0]] + Reflow(words[1..], width, ends)
    else [words[0][..width - 1] + "-"]
  }

  lemma {:induction false} ReflowKeeps(words: seq<string>, width: nat, ends: bool)
    requires width > 0
    requires forall i :: 0 <= i < |words| ==> |words[i]| < width || (|words[i]| == width && i == |words| - 1 && ends)
    ensures Reflow(words, width, ends) == words
    decreases |words|
  {
    if words != [] {
      ReflowKeeps(words[1..], width, ends);
    }
  }

  lemma ReflowOne(word: string, more: seq<string>, width: nat, ends: bool)
    requires |word| < width
    ensures Reflow([word] + more, width, ends) == [word] + Reflow(more, width, ends)
  {
    assert ([word] + more)[1..] == more;
  }

  /** Without width only the last word of a text that ends in it changes. */
  lemma ReflowSkipsAll(words: seq<string>, more: seq<string>, ends: bool)
    requires ends ==> more != []
    ensures Reflow(words + more, 0, ends) == words + Reflow(more, 0, ends)
  {
    if ends {
      assert (words + more)[..|words + more| - 1] == words + more[..|more| - 1];
    }
  }

  lemma {:induction false} ReflowSkips(words: seq<string>, more: seq<string>, width: nat, ends: bool)
    requires if width == 0 then ends ==> more != [] else forall i :: 0 <= i < |words| ==> |words[i]| < width
    ensures Reflow(words + more, width, ends) == words + Reflow(more, width, ends)
    decreases |words|
  {
    hide Reflow;
    if width == 0 {
      ReflowSkipsAll(words, more, ends);
    } else if words == [] {
      assert words + more == more && [] + Reflow(more, width, ends) == Reflow(more, width, ends);
    } else {
      ReflowSkips(words[1..], more, width, ends);
      ReflowOne(words[0], words[1..] + more, width, ends);
      assert [words[0]] + (words[1..] + more) == words + more;
      assert [words[0]] + (words[1..] + Reflow(more, width, ends)) == words + Reflow(more, width, ends);
    }
  }

  /** The words that one round adds in front of those of the later rounds. */
  lemma RoundWords(input: string, width: nat, indent: nat, first: bool)
    requires indent < SIZE_LIMIT && |input| > width
    ensures var c := CutLine(input, width);
      LineWords(Lines(input, width, indent, first))
      == Words(c.line) + LineWords(Lines(c.rest, if first then Narrow(width, indent) else width, indent, false))
  {
    hide CutLine, Narrow, Words;
    var c := CutLine(input, width);
    var more := Lines(c.rest, if first then Narrow(width, indent) else width, indent, false);
    PaddedWords(indent, first, c.line);
    assert Lines(input, width, indent, first)[1..] == more;
  }

  lemma UnsplitWords(input: string, width: nat, indent: nat, first: bool)
    requires indent < SIZE_LIMIT && |input| <= width
    ensures LineWords(Lines(input, width, indent, first)) == Words(input)
  {
    hide Words;
    LastMoves(input, width, indent, first);
    if input == "" {
      NoWords();
    } else {
      PaddedWords(indent, first, input);
      OneLine((if first then "" else Spaces(indent)) + input);
    }
  }

  /** A text that starts with a word and fits on the line is kept. */
  lemma ShortTextReflows(s: string, width: nat)
    requires |s| <= width
    ensures Reflow(Words(s), width, EndsInWord(s)) == Words(s)
  {
    forall i | 0 <= i < |Words(s)|
      ensures |Words(s)[i]| < width || (|Words(s)[i]| == width && i == |Words(s)| - 1 && EndsInWord(s))
    {
      WordsWithin(s, i);
    }
    if width > 0 {
      ReflowKeeps(Words(s), width, EndsInWord(s));
    }
  }

  /** A first word that does not fit is all that is left of a text that starts with it. */
  lemma LongWordReflows(s: string, width: nat)
    requires |s| > width && s[0] != ' ' && !FirstWordFits(s, width)
    ensures Reflow(Words(s), width, EndsInWord(s)) == [Broken(s, width)] && CutLine(s, width).rest == ""
  {
    hide Words;
    var n := WordLength(s);
    FirstWord(s);
    assert s[0..] == s && NextInWord(s, 0) == Some(0);
    assert forall i :: 0 <= i < Searched(s, width) ==> s[i] != ' ';
    if width == 0 {
      SoleWord(s);
      assert s[0..|s|] == s;
    } else {
      assert s[..n][..width - 1] == s[0..width - 1];
      if n == width && EndsInWord(s) {
        assert s[n..][|s| - n - 1] == s[|s| - 1];
        EndingWord(s[n..]);
      }
    }
  }

  /** A cut that breaks no word only sends the later words on. */
  lemma CutReflows(s: string, width: nat)
    requires |s| > width && FirstWordFits(s, width)
    ensures var c := CutLine(s, width);
      Reflow(Words(s), width, EndsInWord(s)) == Words(c.line) + Reflow(Words(c.rest), width, EndsInWord(s))
      && (c.rest != "" ==> c.rest[0] != ' ' && EndsInWord(c.rest) == EndsInWord(s))
  {
    hide Words, WordLength, Reflow;
    BreaksIff(s, width);
    CutKeepsWords(s, width);
    var c := CutLine(s, width);
    var e, k := CutAtGap(s, width);
    if c.rest == "" {
      assert s[|s| - 1] == ' ';
    } else {
      assert c.rest[|c.rest| - 1] == s[|s| - 1];
      if EndsInWord(s) {
        EndingWord(c.rest);
      }
    }
    forall i | 0 <= i < |Words(c.line)| && width > 0
      ensures |Words(c.line)[i]| < width
    {
      WordsWithin(c.line, i);
    }
    ReflowSkips(Words(c.line), Words(c.rest), width, EndsInWord(s));
  }

  lemma BrokenLine(input: string, width: nat)
    requires |input| > width && !FirstWordFits(input, width)
    ensures Words(CutLine(input, width).line) == [Broken(input, width)]
  {
    hide Words, FirstWordFits;
    BreaksIff(input, width);
    BrokenIsOneWord(input, width);
  }

  /** The words on indented lines, for every text that starts with a word. */
  lemma {:induction false} IndentedWords(s: string, width: nat, indent: nat)
    requires indent < SIZE_LIMIT && (s != "" ==> s[0] != ' ')
    ensures LineWords(Lines(s, width, indent, false)) == Reflow(Words(s), width, EndsInWord(s))
    decreases |s|
  {
    hide Words, WordLength, CutLine, Lines, Reflow, FirstWordFits, Broken;
    if |s| <= width {
      UnsplitWords(s, width, indent, false);
      ShortTextReflows(s, width);
    } else {
      RoundWords(s, width, indent, false);
      NothingReflows(width);
      if FirstWordFits(s, width) {
        CutReflows(s, width);
      } else {
        LongWordReflows(s, width);
        BrokenLine(s, width);
      }
      IndentedWords(CutLine(s, width).rest, width, indent);
    }
  }

  lemma NothingReflows(width: nat)
    ensures Words("") == [] && forall ends :: Reflow([], width, ends) == []
  {
  }

  /** The words of the output: a first word that does not fit is broken, and printed again after leading blanks. */
  function OutputWords(str: string, maxWidth: nat, indent: nat): seq<string>
    requires indent < SIZE_LIMIT
  {
    if |str| <= maxWidth then Words(str)
    else
      var c, width := CutLine(str, maxWidth), Narrow(maxWidth, indent);
      if FirstWordFits(str, maxWidth) then Words(c.line) + Reflow(Words(c.rest), width, EndsInWord(str))
      else [Broken(str, maxWidth)] + (if str[0] == ' ' then Reflow(Words(str), width, EndsInWord(str)) else [])
  }

  lemma RestAfterBlanks(str: string, width: nat)
    requires |str| > width && str[0] == ' ' && !FirstWordFits(str, width)
    ensures var c := CutLine(str, width);
      Words(c.rest) == Words(str) && (c.rest != "" ==> c.rest[0] != ' ' && EndsInWord(c.rest) == EndsInWord(str))
  {
    hide Words, FirstWordFits;
    BreaksIff(str, width);
    var p, q := LastSpace(str, Searched(str, width)).value, NextInWord(str, 0);
    assert LastInWord(str, p + 1).None?;
    var k := if q.Some? then q.value else |str|;
    LeadingSpaces(str, k);
    assert str[|str|..] == "";
    assert NextInWord(str, p) == q;
  }

  /** The words of the output, for every text, width and indentation. */
  lemma WordsOfOutput(str: string, maxWidth: nat, indent: nat)
    requires indent < SIZE_LIMIT
    ensures LineWords(Lines(str, maxWidth, indent, true)) == OutputWords(str, maxWidth, indent)
  {
    hide Words, WordLength, CutLine, Lines, Reflow, FirstWordFits, Broken, Narrow;
    if |str| <= maxWidth {
      UnsplitWords(str, maxWidth, indent, true);
    } else {
      RoundWords(str, maxWidth, indent, true);
      NothingReflows(Narrow(maxWidth, indent));
      if FirstWordFits(str, maxWidth) {
        CutReflows(str, maxWidth);
      } else {
        BrokenLine(str, maxWidth);
        if str[0] == ' ' {
          RestAfterBlanks(str, maxWidth);
        } else {
          LongWordReflows(str, maxWidth);
        }
      }
      IndentedWords(CutLine(str, maxWidth).rest, Narrow(maxWidth, indent), indent);
    }
  }

  /** Each word is shorter than the line, but a last one may fill it when it ends the text or ends in a hyphen. */
  predicate Unbroken(words: seq<string>, width: nat, ends: bool) {
    if width == 0 then ends ==> words == []
    else
      forall i :: 0 <= i < |words| ==>
        |words[i]| < width
        || (i == |words| - 1 && |words[i]| == width && (ends || words[i][width - 1] == '-'))
  }

  lemma HyphenEnds(w: string, width: nat)
    requires 1 <= width <= |w|
    ensures w == w[..width - 1] + "-" <==> |w| == width && w[width - 1] == '-'
  {
    if |w| == width && w[width - 1] == '-' {
      assert w == w[..width - 1] + [w[width - 1]];
    }
  }

  lemma {:induction false} ReflowKeepsIff(words: seq<string>, width: nat, ends: bool)
    ensures Reflow(words, width, ends) == words <==> Unbroken(words, width, ends)
    decreases |words|
  {
    if words != [] && width > 0 {
      var w, more := words[0], words[1..];
      ReflowKeepsIff(more, width, ends);
      assert words == [w] + more;
      if |w| < width || (|w| == width && more == [] && ends) {
        assert Unbroken(words, width, ends) <==> Unbroken(more, width, ends) by {
          assert forall i :: 0 <= i < |more| ==> more[i] == words[i + 1];
        }
      } else {
        HyphenEnds(w, width);
        assert [w[..width - 1] + "-"] == words <==> more == [] && w == w[..width - 1] + "-";
      }
    } else if words != [] && ends {
      assert Reflow(words, width, ends)[|words| - 1] != words[|words| - 1];
    }
  }

  /** Reflowing keeps all words, or those in front of the first long one and its beginning. */
  lemma {:induction false} ReflowShape(words: seq<string>, width: nat, ends: bool) returns (j: nat)
    requires width > 0
    ensures Reflow(words, width, ends) == words
         || (j < |words| && |words[j]| >= width && (forall i :: 0 <= i < j ==> |words[i]| < width)
             && Reflow(words, width, ends) == words[..j] + [words[j][..width - 1] + "-"])
    decreases |words|
  {
    j := 0;
    if words != [] {
      assert [words[0]] + words[1..] == words;
      if |words[0]| < width {
        j := ReflowShape(words[1..], width, ends);
        j := j + 1;
        assert j <= |words| ==> words[..j] == [words[0]] + words[1..][..j - 1];
      }
    }
  }

  lemma ShiftMeets(words: seq<string>, j: nat, last: string)
    requires j < |words| && words[..j] + [last] == words[1..]
    ensures |words| == j + 2 && words[j + 1] == last && (j > 0 ==> words[j - 1] == words[j])
  {
    var r := words[..j] + [last];
    assert |r| == |words| - 1;
    assert r[j] == words[1..][j] == words[j + 1];
    if j > 0 {
      assert r[j - 1] == words[1..][j - 1] == words[j];
    }
  }

  /** It drops exactly the first word only from two words of which the second is the broken first. */
  lemma ReflowDropsFirst(words: seq<string>, width: nat, ends: bool)
    requires words != []
    ensures Reflow(words, width, ends) == words[1..]
       <==> |words| == 2 && 1 <= width <= |words[0]| && words[1] == words[0][..width - 1] + "-"
  {
    hide Reflow;
    if width == 0 {
      ReflowLength(words, ends);
    } else {
      var j := ReflowShape(words, width, ends);
      var r := Reflow(words, width, ends);
      if r != words && r == words[1..] {
        ShiftMeets(words, j, words[j][..width - 1] + "-");
      } else if |words| == 2 && width <= |words[0]| && words[1] == words[0][..width - 1] + "-" {
        LongHead(words, width, ends);
      }
    }
  }

  lemma ReflowLength(words: seq<string>, ends: bool)
    ensures |Reflow(words, 0, ends)| == |words|
  {
  }

  lemma LongHead(words: seq<string>, width: nat, ends: bool)
    requires |words| > 1 && 1 <= width <= |words[0]|
    ensures Reflow(words, width, ends) == [words[0][..width - 1] + "-"]
  {
  }

  /**
   The text loses and gains no word: it needs no split; or its first word fits and the words that
   the first cut leaves fit on the indented lines. Or else, by chance, the broken words are words
   of the text: its only word fills the first line and ends in a hyphen; or, after blanks, a word
   printed twice stands for two that end in hyphens.
   */
  predicate KeepsWords(str: string, maxWidth: nat, indent: nat)
    requires indent < SIZE_LIMIT
  {
    var words, width := Words(str), Narrow(maxWidth, indent);
    || |str| <= maxWidth
    || (if FirstWordFits(str, maxWidth) then Unbroken(Words(CutLine(str, maxWidth).rest), width, EndsInWord(str))
        else if str[0] != ' ' then words == [Broken(str, maxWidth)]
        else |words| == 2 && words[0] == Broken(str, maxWidth)
             && 1 <= width <= |words[0]| && words[1] == words[0][..width - 1] + "-")
  }

  /** Exactly these texts keep their words, whatever the width and the indentation. */
  lemma WordsKeptIffNoneBroken(str: string, maxWidth: nat, indent: nat)
    requires indent < SIZE_LIMIT
    ensures LineWords(Lines(str, maxWidth, indent, true)) == Words(str) <==> KeepsWords(str, maxWidth, indent)
  {
    hide Words, WordLength, CutLine, Lines, Reflow, FirstWordFits, Broken, Narrow, Unbroken, LineWords;
    WordsOfOutput(str, maxWidth, indent);
    if |str| > maxWidth {
      var words, width, ends, rest := Words(str), Narrow(maxWidth, indent), EndsInWord(str), Words(CutLine(str, maxWidth).rest);
      if FirstWordFits(str, maxWidth) {
        BreaksIff(str, maxWidth);
        CutKeepsWords(str, maxWidth);
        ReflowKeepsIff(rest, width, ends);
        SameTail(Words(CutLine(str, maxWidth).line), Reflow(rest, width, ends), rest);
      } else if str[0] == ' ' {
        if words != [] {
          ReflowDropsFirst(words, width, ends);
          assert words == [words[0]] + words[1..];
          assert ([Broken(str, maxWidth)] + Reflow(words, width, ends))[1..] == Reflow(words, width, ends);
        }
      }
    }
  }

  lemma SameTail<T>(a: seq<T>, b: seq<T>, c: seq<T>)
    ensures a + b == a + c <==> b == c
  {
    if a + b == a + c {
      assert (a + b)[|a|..] == b && (a + c)[|a|..] == c;
    }
  }

  lemma {:induction false} WordChars(s: string, i: nat, x: char)
    requires i < |Words(s)| && x in Words(s)[i]
    ensures x in s
    decreases |s|
  {
    hide WordLength;
    if s[0] == ' ' {
      WordChars(s[1..], i, x);
    } else {
      StartsLong(s);
      if i > 0 {
        WordChars(s[WordLength(s)..], i - 1, x);
      }
    }
  }

  lemma NoWordIsBroken(str: string, width: nat)
    requires |str| > width && '-' !in str
    ensures Words(str) != [] ==> Words(str)[0] != Broken(str, width)
  {
    var b := Broken(str, width);
    assert b[|b| - 1] == '-';
    if Words(str) != [] && Words(str)[0] == b {
      WordChars(str, 0, '-');
    }
  }

  /** Each word is shorter than the line, but a last one that ends the text may fill it. */
  predicate FitLines(words: seq<string>, width: nat, ends: bool) {
    forall i :: 0 <= i < |words| ==> |words[i]| < width || (i == |words| - 1 && |words[i]| == width && ends)
  }

  lemma UnbrokenIsFit(s: string, width: nat, ends: bool)
    requires '-' !in s && width > 0
    ensures Unbroken(Words(s), width, ends) <==> FitLines(Words(s), width, ends)
  {
    hide Words;
    forall i | 0 <= i < |Words(s)| && |Words(s)[i]| == width
      ensures Words(s)[i][width - 1] != '-'
    {
      if Words(s)[i][width - 1] == '-' {
        WordChars(s, i, '-');
      }
    }
  }

  /** Without hyphens in the text nothing is kept by chance. */
  lemma KeptWithoutHyphens(str: string, maxWidth: nat, indent: nat)
    requires indent < maxWidth && indent < SIZE_LIMIT && '-' !in str
    ensures LineWords(Lines(str, maxWidth, indent, true)) == Words(str)
       <==> |str| <= maxWidth
            || (FirstWordFits(str, maxWidth)
                && FitLines(Words(CutLine(str, maxWidth).rest), maxWidth - indent, EndsInWord(str)))
  {
    hide Words, CutLine, Lines, FirstWordFits, Broken, Unbroken, FitLines, LineWords;
    WordsKeptIffNoneBroken(str, maxWidth, indent);
    if |str| > maxWidth {
      RestChars(str, maxWidth);
      UnbrokenIsFit(CutLine(str, maxWidth).rest, maxWidth - indent, EndsInWord(str));
      NoWordIsBroken(str, maxWidth);
    }
  }

  lemma RestChars(str: string, width: nat)
    requires |str| > width
    ensures forall x :: x in CutLine(str, width).rest ==> x in str
  {
    var rest := CutLine(str, width).rest;
    assert rest == str[|str| - |rest|..];
  }

  ghost predicate AllShorter(words: seq<string>, width: nat) {
    forall i :: 0 <= i < |words| ==> |words[i]| < width
  }

  /**
   When a text that has to be split has its leading blanks with the first word, and each word on
   an indented line, shorter than the line, the output has the words of the text and no others.
   */
  lemma ShortWordsAreKept(str: string, maxWidth: nat, indent: nat)
    requires indent < SIZE_LIMIT && indent < maxWidth
    requires |str| > maxWidth ==> FirstWordFits(str, maxWidth) && AllShorter(Words(str), maxWidth - indent)
    ensures LineWords(Lines(str, maxWidth, indent, true)) == Words(str)
  {
    hide Words, CutLine, Lines, FirstWordFits, LineWords;
    WordsKeptIffNoneBroken(str, maxWidth, indent);
    if |str| > maxWidth {
      var c := CutLine(str, maxWidth);
      BreaksIff(str, maxWidth);
      CutKeepsWords(str, maxWidth);
      assert forall i :: 0 <= i < |Words(c.rest)| ==> Words(c.rest)[i] == Words(str)[|Words(c.line)| + i];
    }
  }

  // ----- Long words -----

  /** A line without a space loses all that follows it. */
  lemma LongWordIsTruncated(input: string, width: nat, indent: nat, first: bool)
    requires indent < SIZE_LIMIT && 1 <= width < |input| && forall i :: 0 <= i < width ==> input[i] != ' '
    ensures Lines(input, width, indent, first) == [Line((if first then "" else Spaces(indent)) + (input[..width - 1] + "-"), true)]
  {
    assert LastSpace(input, width).None?;
  }

  /** After leading blanks, the letters in front of the hyphen are printed and then left over once more. */
  lemma LongWordIsRepeated(input: string, width: nat, q: nat)
    requires 0 < q < width < |input|
    requires (forall i :: 0 <= i < q ==> input[i] == ' ') && forall i :: q <= i < width ==> input[i] != ' '
    ensures CutLine(input, width) == Cut(input[..width - 1] + "-", input[q..], true)
  {
    assert input[q - 1] == ' ' && input[q] != ' ';
    assert LastSpace(input, width) == Some(q - 1);
    assert LastInWord(input, q).None?;
    assert NextInWord(input, q - 1) == Some(q);
  }
}
