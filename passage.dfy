/** The text source: assembling a passage from words already drawn at random,
    and the sequence of character spans the passage is displayed as. */
module Passage {

  datatype Language = English | Chinese

  /** Words drawn per English passage and entries drawn per Chinese passage. */
  function DrawCount(lang: Language): nat
  {
    match lang
    case English => 70
    case Chinese => 100
  }

  /** Every tenth English word starts a sentence. */
  const SentenceLength: nat := 10

  /** Upper-casing of one character, restricted to ASCII letters. */
  function Upper(c: char): char
  {
    if 'a' <= c <= 'z' then (c as int - 32) as char else c
  }

  /** The word with its first character upper-cased (`charAt(0).toUpperCase()
      + slice(1)`); the empty word stays empty. */
  function Capitalise(w: seq<char>): seq<char>
  {
    if w == [] then [] else [Upper(w[0])] + w[1..]
  }

  /** `Array.prototype.join(' ')`. */
  function JoinSpaced(parts: seq<seq<char>>): seq<char>
  {
    if |parts| == 0 then []
    else if |parts| == 1 then parts[0]
    else parts[0] + " " + JoinSpaced(parts[1..])
  }

  /** `Array.prototype.join('')`. */
  function Concat(parts: seq<seq<char>>): seq<char>
  {
    if parts == [] then [] else parts[0] + Concat(parts[1..])
  }

  /** The drawn words with the first word of every sentence capitalised. */
  function CapitaliseSentenceStarts(words: seq<seq<char>>): seq<seq<char>>
  {
    seq(|words|, j requires 0 <= j < |words| =>
      if j % SentenceLength == 0 then Capitalise(words[j]) else words[j])
  }

  /** What a passage is, independently of how it is built: in English the
      drawn words joined by single spaces with each sentence start
      capitalised; in Chinese the drawn entries run together. */
  function PassageText(lang: Language, draws: seq<seq<char>>): seq<char>
  {
    match lang
    case English => JoinSpaced(CapitaliseSentenceStarts(draws))
    case Chinese => Concat(draws)
  }

  lemma {:induction false} JoinSpacedAppend(a: seq<seq<char>>, b: seq<seq<char>>)
    requires a != [] && b != []
    ensures JoinSpaced(a + b) == JoinSpaced(a) + " " + JoinSpaced(b)
  {
    if |a| == 1 {
      assert (a + b)[1..] == b;
    } else {
      JoinSpacedAppend(a[1..], b);
      assert (a + b)[1..] == a[1..] + b;
    }
  }

  lemma SentencePosition(i: nat, k: nat)
    requires i % SentenceLength == 0 && k < SentenceLength
    ensures (i + k) % SentenceLength == k
  {
  }

  /** One sentence of the loop: the ten words from a sentence start with the
      first capitalised are that stretch of the capitalised words. */
  lemma SentenceWords(draws: seq<seq<char>>, i: nat)
    requires i % SentenceLength == 0 && i + SentenceLength <= |draws|
    ensures draws[i..i + SentenceLength][0 := Capitalise(draws[i])]
            == CapitaliseSentenceStarts(draws)[i..i + SentenceLength]
  {
    var starts := CapitaliseSentenceStarts(draws);
    var words := draws[i..i + SentenceLength][0 := Capitalise(draws[i])];
    forall k | 0 <= k < SentenceLength ensures words[k] == starts[i + k] {
      SentencePosition(i, k);
    }
  }

  /** Appending the joined next sentence to the joined sentences so far
      joins the words one sentence further. */
  lemma SentenceAppend(sentences: seq<seq<char>>, starts: seq<seq<char>>, i: nat)
    requires (sentences == []) == (i == 0) && i + SentenceLength <= |starts|
    requires JoinSpaced(sentences) == JoinSpaced(starts[..i])
    ensures JoinSpaced(sentences + [JoinSpaced(starts[i..i + SentenceLength])])
            == JoinSpaced(starts[..i + SentenceLength])
  {
    var next := starts[i..i + SentenceLength];
    assert starts[..i + SentenceLength] == starts[..i] + next;
    if i > 0 {
      JoinSpacedAppend(sentences, [JoinSpaced(next)]);
      JoinSpacedAppend(starts[..i], next);
    } else {
      assert starts[..i] + next == next;
    }
  }

  /** The passage for the session's language (generateText): English builds
      seven sentences of ten words each and joins them; Chinese joins the
      drawn entries with nothing between them. */
  method GenerateText(lang: Language, draws: seq<seq<char>>) returns (text: seq<char>)
    requires |draws| == DrawCount(lang)
    ensures text == PassageText(lang, draws)
  {
    if lang == English {
      ghost var starts := CapitaliseSentenceStarts(draws);
      var sentences: seq<seq<char>> := [];
      var i := 0;
      while i < 70
        invariant 0 <= i <= 70 && i % SentenceLength == 0
        invariant (sentences == []) == (i == 0)
        invariant JoinSpaced(sentences) == JoinSpaced(starts[..i])
      {
        var sentenceWords := draws[i..i + 10];
        sentenceWords := sentenceWords[0 := Capitalise(sentenceWords[0])];
        SentenceWords(draws, i);
        SentenceAppend(sentences, starts, i);
        sentences := sentences + [JoinSpaced(sentenceWords)];
        i := i + 10;
      }
      assert starts[..i] == starts;
      text := JoinSpaced(sentences);
    } else {
      text := Concat(draws);
    }
  }

  /** `String.prototype.split(' ')`: the pieces between spaces, where the
      empty text gives one empty piece. */
  function SplitSpaces(s: seq<char>): (parts: seq<seq<char>>)
    ensures parts != []
  {
    if s == [] then [[]]
    else if s[0] == ' ' then [[]] + SplitSpaces(s[1..])
    else
      var rest := SplitSpaces(s[1..]);
      [[s[0]] + rest[0]] + rest[1..]
  }

  /** Each word's characters followed by one space character. */
  function WordSpans(words: seq<seq<char>>): seq<char>
  {
    if words == [] then [] else words[0] + " " + WordSpans(words[1..])
  }

  /** The characters of the spans that display a passage, in order: in
      English one span per character of each space-separated word plus a
      space span after it; in Chinese one span per character. */
  function SpanChars(lang: Language, text: seq<char>): seq<char>
  {
    match lang
    case English => WordSpans(SplitSpaces(text))
    case Chinese => text
  }

  /** The English spans are the passage text with exactly one trailing space. */
  lemma {:induction false} EnglishSpans(text: seq<char>)
    ensures SpanChars(English, text) == text + " "
  {
    if text == [] {
    } else if text[0] == ' ' {
      EnglishSpans(text[1..]);
      assert ([[]] + SplitSpaces(text[1..]))[1..] == SplitSpaces(text[1..]);
      assert text == [' '] + text[1..];
    } else {
      var rest := SplitSpaces(text[1..]);
      var parts := [[text[0]] + rest[0]] + rest[1..];
      assert parts[1..] == rest[1..];
      calc {
        SpanChars(English, text);
        WordSpans(parts);
        ([text[0]] + rest[0]) + " " + WordSpans(rest[1..]);
        [text[0]] + (rest[0] + " " + WordSpans(rest[1..]));
        [text[0]] + WordSpans(rest);
        { EnglishSpans(text[1..]); }
        [text[0]] + (text[1..] + " ");
        { assert text == [text[0]] + text[1..]; }
        text + " ";
      }
    }
  }

  /** Splitting a text that starts with a space-free word keeps that word in
      front of the first piece of the remainder. */
  lemma {:induction false} SplitAfterWord(w: seq<char>, r: seq<char>)
    requires forall j :: 0 <= j < |w| ==> w[j] != ' '
    ensures SplitSpaces(w + r) == [w + SplitSpaces(r)[0]] + SplitSpaces(r)[1..]
  {
    if w == [] {
      var parts := SplitSpaces(r);
      assert w + r == r && w + parts[0] == parts[0] && parts == [parts[0]] + parts[1..];
    } else {
      var rest := SplitSpaces(w[1..] + r);
      assert (w + r)[0] == w[0] && (w + r)[1..] == w[1..] + r;
      assert SplitSpaces(w + r) == [[w[0]] + rest[0]] + rest[1..];
      SplitAfterWord(w[1..], r);
      assert [w[0]] + (w[1..] + SplitSpaces(r)[0]) == w + SplitSpaces(r)[0];
    }
  }

  /** Round trip: splitting joined space-free words on spaces gives back the
      words. */
  lemma {:induction false} SplitJoin(words: seq<seq<char>>)
    requires words != []
    requires forall i, j :: 0 <= i < |words| && 0 <= j < |words[i]| ==> words[i][j] != ' '
    ensures SplitSpaces(JoinSpaced(words)) == words
  {
    if |words| == 1 {
      SplitAfterWord(words[0], []);
      assert words[0] + [] == words[0] && words == [words[0]];
    } else {
      var tail := JoinSpaced(words[1..]);
      var r := " " + tail;
      SplitJoin(words[1..]);
      assert r[0] == ' ' && r[1..] == tail;
      assert SplitSpaces(r) == [[]] + words[1..];
      SplitAfterWord(words[0], r);
      assert words[0] + " " + tail == words[0] + r;
      assert words[0] + [] == words[0] && words == [words[0]] + words[1..];
    }
  }
}
