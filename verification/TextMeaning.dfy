/**
 What the string operations of the assembler do on any text (bogvm/assembler.py): where Python breaks lines and words,
 where the cut falls, how letters change case, and which words are numbers.
 */
module TextMeaning {
  import opened Wrappers
  import opened Decimals
  import opened AssemblyText

  /** The code points that are spaces, and those among them that end lines. */
  lemma SpacesMean(c: char)
    ensures IsSpace(c) <==> var n := c as int;
            9 <= n <= 13 || 28 <= n <= 32 || 8192 <= n <= 8202 || n in {133, 160, 5760, 8232, 8233, 8239, 8287, 12288}
    ensures IsBreak(c) <==> c as int in {10, 11, 12, 13, 28, 29, 30, 133, 8232, 8233}
  {
  }

  /** Text without a break is one line, or none if it is empty. */
  lemma OneLine(line: string)
    requires NoBreaks(line)
    ensures SplitLines(line) == if line == "" then [] else [line]
  {
    SpanIs(IsBreak, line, |line|);
  }

  /** A line ends at a break; a carriage return with a line feed after it is one break. */
  lemma LineEnds(line: string, b: char, rest: string)
    requires NoBreaks(line) && IsBreak(b)
    ensures SplitLines(line + [b] + rest) == [line] + SplitLines(if b == '\r' && rest != "" && rest[0] == '\n' then rest[1..] else rest)
  {
    var text := line + [b] + rest;
    SpanIs(IsBreak, text, |line|);
    assert text[|line|] == b && text[..|line|] == line && text[|line| + 1..] == rest;
    if rest != "" {
      assert text[|line| + 1] == rest[0] && text[|line| + 2..] == rest[1..];
    }
  }

  /** Spaces in front are passed over; a word goes on to the next space, or to the end. */
  lemma WordsMean(word: string, c: char, rest: string)
    requires IsSpace(c)
    ensures Words([c] + rest) == Words(rest)
    ensures IsToken(word) ==> Words(word) == [word] && Words(word + [c] + rest) == [word] + Words(rest)
    ensures Words("") == []
  {
    assert ([c] + rest)[1..] == rest;
    if IsToken(word) {
      var line := word + [c] + rest;
      SpanIs(IsSpace, word, |word|);
      SpanIs(IsSpace, line, |word|);
      assert word[..|word|] == word && word[|word|..] == "";
      assert line[0] == word[0] && line[..|word|] == word && line[|word|..] == [c] + rest;
    }
  }

  /** The cut falls at the first `#`. */
  lemma CutMeans(front: string, rest: string)
    requires '#' !in front
    ensures Cut(front) == front && Cut(front + "#" + rest) == front
  {
    CutThen(front, "#" + rest);
    CutThen(front, "");
    assert front + "#" + rest == front + ("#" + rest);
    assert Cut("#" + rest) == "" && front + "" == front;
  }

  /** Letters change case, and nothing else does. */
  lemma CaseMeans(s: string, i: nat)
    requires i < |s|
    ensures 'a' <= s[i] <= 'z' ==> 'A' <= Upper(s)[i] <= 'Z' && Upper(s)[i] as int - 'A' as int == s[i] as int - 'a' as int
    ensures !('a' <= s[i] <= 'z') ==> Upper(s)[i] == s[i]
    ensures 'A' <= s[i] <= 'Z' ==> 'a' <= Lower(s)[i] <= 'z' && Lower(s)[i] as int - 'a' as int == s[i] as int - 'A' as int
    ensures !('A' <= s[i] <= 'Z') ==> Lower(s)[i] == s[i]
  {
  }

  /** Numbers digit by digit: one more digit is ten times the number and the digit; a single underscore may stand before it. */
  lemma DigitAfter(front: string, digit: char)
    requires front != "" && front[|front| - 1] != '_'
    ensures DigitsOf(front + [digit])
         == if !IsDigit(digit) || DigitsOf(front).None? then None else Some(10 * DigitsOf(front).value + (digit as nat - '0' as nat))
    ensures DigitsOf(front + "_" + [digit]) == DigitsOf(front + [digit])
  {
    hide DigitsOf;
    var (x, y) := (front + [digit], front + "_" + [digit]);
    LastDigit(x);
    LastDigit(y);
    assert x[..|x| - 1] == front && y[..|y| - 1] == front + "_" && (front + "_")[..|front|] == front;
  }

  lemma OneDigit(digit: char)
    ensures DigitsOf([digit]) == if IsDigit(digit) then Some(digit as nat - '0' as nat) else None
    ensures DigitsOf("") == None && DigitsOf("_" + [digit]) == None
  {
    assert [digit][..0] == "" && ("_" + [digit])[..1] == "_" && "_"[..0] == "";
  }

  lemma SignReads(sign: char, digits: string)
    requires sign == '-' || sign == '+'
    ensures IntOf([sign] + digits) == match DigitsOf(digits) case Some(n) => Some(if sign == '-' then 0 - n else n) case None => None
  {
    hide DigitsOf;
    SignIsNoDigit(sign, digits);
    assert ([sign] + digits)[1..] == digits && ([sign] + digits)[0] == sign;
  }

  /** A sign may stand in front of a number. */
  lemma SignsMean(digits: string)
    ensures DigitsOf(digits).Some? ==> IntOf(digits) == DigitsOf(digits)
    ensures IntOf("-" + digits) == match DigitsOf(digits) case Some(n) => Some(0 - n) case None => None
    ensures IntOf("+" + digits) == DigitsOf(digits)
  {
    if DigitsOf(digits).Some? {
      assert IntOf(digits) == DigitsOf(digits);
    }
    hide IntOf, DigitsOf;
    SignReads('-', digits);
    SignReads('+', digits);
  }
}
