/** ExecStart lines: quoting words for systemd and splitting a line back. */
module Systemd {
  import opened Basics

  const SPACE: byte := 32
  const TAB: byte := 9
  const NEWLINE: byte := 10
  const QUOTE: byte := 34
  const APOSTROPHE: byte := 39
  const BACKSLASH: byte := 92
  const DOLLAR: byte := 36

  // ----- writing -----

  predicate Special(c: byte) {
    c == SPACE || c == TAB || c == NEWLINE || c == QUOTE || c == APOSTROPHE || c == BACKSLASH || c == DOLLAR
  }

  /** The replacer: backslash, quote and dollar doubled or escaped. */
  function EscapedByte(c: byte): text {
    if c == BACKSLASH || c == QUOTE then [BACKSLASH, c] else if c == DOLLAR then [DOLLAR, DOLLAR] else [c]
  }

  function Escaped(s: text): text {
    if s == [] then [] else EscapedByte(s[0]) + Escaped(s[1..])
  }

  /** Words that need no quotes. */
  predicate Plain(s: text) {
    s != [] && forall i :: 0 <= i < |s| ==> !Special(s[i])
  }

  function Quoted(s: text): text {
    if Plain(s) then s
    else [QUOTE] + Escaped(s) + [QUOTE]
  }

  function Join(parts: seq<text>): text
    requires parts != []
  {
    var last := |parts| - 1;
    if last == 0 then parts[0] else Join(parts[..last]) + ([SPACE] + parts[last])
  }

  function QuotedAll(words: seq<text>): seq<text> {
    seq(|words|, i requires 0 <= i < |words| => Quoted(words[i]))
  }

  function CommandOf(words: seq<text>): text
    requires words != []
  {
    Join(QuotedAll(words))
  }

  method Command(exe: text, args: seq<text>) returns (line: text)
    ensures line == CommandOf([exe] + args)
  {
    var parts := [Quoted(exe)];
    for i := 0 to |args|
      invariant parts == QuotedAll([exe] + args[..i])
    {
      parts := parts + [Quoted(args[i])];
    }
    assert args[..|args|] == args;
    return Join(parts);
  }

  // ----- splitting -----

  /** The splitter between two bytes: the words done, the word being read,
      whether there is one, and whether a quote is open. */
  datatype State = State(words: seq<text>, cur: text, inWord: bool, quote: bool)

  const START := State([], [], false, false)

  predicate Blank(c: byte) {
    c == SPACE || c == TAB
  }

  function Put(s: State, c: byte): State {
    s.(cur := s.cur + [c], inWord := true)
  }

  function Finished(s: State): State {
    if s.inWord then State(s.words + [s.cur], [], false, s.quote) else s
  }

  /** What the rest of the line makes of a state; None for a quote left
      open. */
  function Scanned(s: State, line: text): Option<seq<text>>
    decreases |line|
  {
    if line == [] then (if s.quote then None else Some(Finished(s).words))
    else
      var c, more := line[0], |line| > 1;
      if s.quote && c == BACKSLASH && more then Scanned(s.(cur := s.cur + [line[1]]), line[2..])
      else if s.quote && c == QUOTE then Scanned(s.(quote := false), line[1..])
      else if c == DOLLAR && more && line[1] == DOLLAR then Scanned(Put(s, DOLLAR), line[2..])
      else if !s.quote && c == QUOTE then Scanned(s.(quote := true, inWord := true), line[1..])
      else if !s.quote && Blank(c) then Scanned(Finished(s), line[1..])
      else Scanned(Put(s, c), line[1..])
  }

  method Split(line: text) returns (r: Option<seq<text>>)
    ensures r == Scanned(START, line)
  {
    var words: seq<text>, cur: text, inWord, quote := [], [], false, false;
    var i := 0;
    while i < |line|
      invariant 0 <= i <= |line|
      invariant Scanned(START, line) == Scanned(State(words, cur, inWord, quote), line[i..])
    {
      var c := line[i];
      if i + 1 < |line| {
        assert line[i..][1] == line[i + 1] && line[i..][2..] == line[i + 2..];
      }
      assert line[i..][0] == c && line[i..][1..] == line[i + 1..];
      if quote && c == BACKSLASH && i + 1 < |line| {
        i := i + 1;
        cur := cur + [line[i]];
      } else if quote && c == QUOTE {
        quote := false;
      } else if c == DOLLAR && i + 1 < |line| && line[i + 1] == DOLLAR {
        i := i + 1;
        cur := cur + [DOLLAR];
        inWord := true;
      } else if !quote && c == QUOTE {
        quote, inWord := true, true;
      } else if !quote && (c == SPACE || c == TAB) {
        if inWord {
          words, cur, inWord := words + [cur], [], false;
        }
      } else {
        cur := cur + [c];
        inWord := true;
      }
      i := i + 1;
    }
    if quote {
      return None;
    }
    if inWord {
      words := words + [cur];
    }
    return Some(words);
  }

  // ----- the round trip -----

  /** One escaped byte inside quotes. */
  lemma ReadsByte(s: State, c: byte, tail: text)
    requires s.quote && s.inWord
    ensures Scanned(s, EscapedByte(c) + tail) == Scanned(s.(cur := s.cur + [c]), tail)
  {
    var line := EscapedByte(c) + tail;
    assert line[|EscapedByte(c)|..] == tail && line[0] == EscapedByte(c)[0];
    assert |EscapedByte(c)| == 2 ==> line[1] == EscapedByte(c)[1];
  }

  /** Reading an escaped text inside quotes gives the text. */
  lemma {:induction false} ReadsEscaped(s: State, w: text, rest: text)
    requires s.quote && s.inWord
    ensures Scanned(s, Escaped(w) + rest) == Scanned(s.(cur := s.cur + w), rest)
    decreases |w|
  {
    if w == [] {
      assert s.cur + w == s.cur && Escaped(w) + rest == rest;
    } else {
      var c, tail := w[0], Escaped(w[1..]) + rest;
      assert Escaped(w) + rest == EscapedByte(c) + tail;
      assert s.cur + [c] + w[1..] == s.cur + w;
      ReadsByte(s, c, tail);
      ReadsEscaped(s.(cur := s.cur + [c]), w[1..], rest);
    }
  }

  lemma {:induction false} ReadsPlain(s: State, w: text, rest: text)
    requires !s.quote && s.inWord && forall i :: 0 <= i < |w| ==> !Special(w[i])
    ensures Scanned(s, w + rest) == Scanned(s.(cur := s.cur + w), rest)
    decreases |w|
  {
    if w == [] {
      assert s.cur + w == s.cur && w + rest == rest;
    } else {
      assert (w + rest)[0] == w[0] && (w + rest)[1..] == w[1..] + rest;
      assert s.cur + [w[0]] + w[1..] == s.cur + w;
      ReadsPlain(Put(s, w[0]), w[1..], rest);
    }
  }

  lemma ReadsPlainWord(words: seq<text>, w: text, rest: text)
    requires Plain(w)
    ensures Scanned(State(words, [], false, false), w + rest) == Scanned(State(words, w, true, false), rest)
  {
    var s := State(words, [], false, false);
    assert (w + rest)[0] == w[0] && (w + rest)[1..] == w[1..] + rest;
    ReadsPlain(Put(s, w[0]), w[1..], rest);
    assert [] + [w[0]] + w[1..] == w;
  }

  lemma ReadsQuotedWord(words: seq<text>, w: text, rest: text)
    ensures Scanned(State(words, [], false, false), [QUOTE] + (Escaped(w) + ([QUOTE] + rest)))
         == Scanned(State(words, w, true, false), rest)
  {
    var tail := [QUOTE] + rest;
    var line := [QUOTE] + (Escaped(w) + tail);
    assert line[0] == QUOTE && line[1..] == Escaped(w) + tail;
    ReadsEscaped(State(words, [], true, true), w, tail);
    assert [] + w == w;
    assert tail[0] == QUOTE && tail[1..] == rest;
  }

  /** A quoted word is read as one word, whatever follows it. */
  lemma ReadsWord(words: seq<text>, w: text, rest: text)
    ensures Scanned(State(words, [], false, false), Quoted(w) + rest) == Scanned(State(words, w, true, false), rest)
  {
    if Plain(w) {
      ReadsPlainWord(words, w, rest);
    } else {
      assert Quoted(w) + rest == [QUOTE] + (Escaped(w) + ([QUOTE] + rest));
      ReadsQuotedWord(words, w, rest);
    }
  }

  /** Blanks between words, any number of them. */
  lemma {:induction false} ReadsBlanks(s: State, gap: text, rest: text)
    requires !s.quote && AllBlank(gap)
    ensures Scanned(s, gap + rest) == Scanned(if gap == [] then s else Finished(s), rest)
    decreases |gap|
  {
    if gap == [] {
      assert gap + rest == rest;
    } else {
      assert (gap + rest)[0] == gap[0] && (gap + rest)[1..] == gap[1..] + rest;
      ReadsBlanks(Finished(s), gap[1..], rest);
    }
  }

  /** words separated by gaps: gaps[i] stands before word i, the last one at
      the end of the line. */
  function Laid(words: seq<text>, gaps: seq<text>): text
    requires |gaps| == |words| + 1
  {
    if words == [] then gaps[0]
    else gaps[0] + (Quoted(words[0]) + Laid(words[1..], gaps[1..]))
  }

  predicate AllBlank(gap: text) {
    forall i :: 0 <= i < |gap| ==> Blank(gap[i])
  }

  ghost predicate Separates(gaps: seq<text>) {
    && (forall i :: 0 <= i < |gaps| ==> AllBlank(gaps[i]))
    && (forall i :: 0 < i < |gaps| - 1 ==> gaps[i] != [])
  }

  lemma LaidParts(words: seq<text>, gaps: seq<text>)
    requires |gaps| == |words| + 1 && Separates(gaps) && words != []
    ensures Separates(gaps[1..]) && (words[1..] != [] ==> gaps[1..][0] != [])
  {
  }

  lemma {:induction false} ReadsAfterWord(done: seq<text>, w: text, words: seq<text>, gaps: seq<text>)
    requires |gaps| == |words| + 1 && Separates(gaps) && (words != [] ==> gaps[0] != [])
    ensures Scanned(State(done, w, true, false), Laid(words, gaps)) == Some(done + [w] + words)
    decreases |words|
  {
    var s := State(done, w, true, false);
    if words == [] {
      assert gaps[0] + [] == gaps[0];
      ReadsBlanks(s, gaps[0], []);
      assert done + [w] + words == done + [w];
    } else {
      LaidParts(words, gaps);
      var rest := Laid(words[1..], gaps[1..]);
      ReadsBlanks(s, gaps[0], Quoted(words[0]) + rest);
      ReadsWord(done + [w], words[0], rest);
      ReadsAfterWord(done + [w], words[0], words[1..], gaps[1..]);
      assert done + [w] + [words[0]] + words[1..] == done + [w] + words;
    }
  }

  /** However quoted words are spaced, splitting gives exactly the words. */
  lemma AnyLayoutReads(words: seq<text>, gaps: seq<text>)
    requires |gaps| == |words| + 1 && Separates(gaps)
    ensures Scanned(START, Laid(words, gaps)) == Some(words)
  {
    if words == [] {
      assert gaps[0] + [] == gaps[0];
      ReadsBlanks(START, gaps[0], []);
    } else {
      LaidParts(words, gaps);
      var rest := Laid(words[1..], gaps[1..]);
      ReadsBlanks(START, gaps[0], Quoted(words[0]) + rest);
      ReadsWord([], words[0], rest);
      ReadsAfterWord([], words[0], words[1..], gaps[1..]);
      assert [] + [words[0]] + words[1..] == words;
    }
  }


  lemma {:induction false} ReadsJoined(words: seq<text>, rest: text)
    requires words != []
    ensures Scanned(START, CommandOf(words) + rest)
         == Scanned(State(words[..|words| - 1], words[|words| - 1], true, false), rest)
    decreases |words|
  {
    var last := |words| - 1;
    if last == 0 {
      ReadsWord([], words[0], rest);
      assert words[..0] == [];
    } else {
      var front, w := words[..last], words[last];
      var tail := [SPACE] + (Quoted(w) + rest);
      assert QuotedAll(words)[..last] == QuotedAll(front);
      assert CommandOf(words) + rest == CommandOf(front) + tail;
      ReadsJoined(front, tail);
      assert tail[0] == SPACE && tail[1..] == Quoted(w) + rest;
      assert front[..last - 1] + [front[last - 1]] == front;
      ReadsWord(front, w, rest);
    }
  }

  /** Splitting undoes Command for every executable and argument list: empty
      words, quotes, backslashes, dollars and blanks included. */
  lemma CommandRoundTrip(exe: text, args: seq<text>)
    ensures Scanned(START, CommandOf([exe] + args)) == Some([exe] + args)
  {
    var words := [exe] + args;
    ReadsJoined(words, []);
    assert CommandOf(words) + [] == CommandOf(words);
    assert words[..|words| - 1] + [words[|words| - 1]] == words;
  }

  /** So no two commands share a line. */
  lemma CommandsDiffer(words: seq<text>, others: seq<text>)
    requires words != [] && others != [] && CommandOf(words) == CommandOf(others)
    ensures words == others
  {
    CommandRoundTrip(words[0], words[1..]);
    CommandRoundTrip(others[0], others[1..]);
    assert [words[0]] + words[1..] == words && [others[0]] + others[1..] == others;
  }
}
