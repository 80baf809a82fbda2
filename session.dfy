/** The typing-session state machine: one object holding the module-level
    state of the page (the displayed character spans and their classes, the
    recorded per-position states, the cursor, the totals, the countdown and
    the language) and one method per handler that updates it. */
module TypingTest {
  import opened Ledger
  import opened Passage
  import Metrics

  /** Seconds on the clock at the start of a session: the whole window. */
  const Countdown: int := Metrics.Window

  /** The key name of the correction key. */
  const Backspace: seq<char> := "Backspace"

  /** What the three stat readouts show. */
  datatype Readout = Readout(wpm: Metrics.Speed, accuracy: int, errors: int)

  class Session {
    /** The text of the displayed character spans, in order. */
    var target: seq<char>
    /** The correctness class on each displayed span. */
    var marks: seq<Mark>
    /** The recorded per-position states (characterStates). */
    var states: seq<CharState>
    /** The position expecting the next input (currentIndex). */
    var cursor: nat
    var errors: int
    var totalTyped: int
    var timeLeft: int
    var active: bool
    var lang: Language
    /** The totals carried over from the passages already finished this session. */
    ghost var carriedTyped: int
    ghost var carriedErrors: int

    /** The invariant kept between events. While no session runs the display
        holds no character spans. */
    ghost predicate Valid()
      reads this
    {
      && Settled()
      && (!active ==> target == [])
      && (active ==> Running())
    }

    /** What holds in every state, running or not. */
    ghost predicate Settled()
      reads this
    {
      && |marks| == |target|
      && 0 <= errors <= totalTyped
      && 0 <= timeLeft <= Countdown
    }

    /** The invariant of a running session: the clock has time left, the
        ledger of the current passage is in order (Ledger.InOrder) and in
        Chinese the totals match the ledger. */
    ghost predicate Running()
      reads this
    {
      && |states| == |target| == |marks|
      && 0 < timeLeft
      && InOrder(marks, states, cursor, lang == English)
      && (lang == Chinese ==> ChineseTotals())
    }

    /** In Chinese the totals are exactly the carried-over totals plus the
        counts of the current ledger. */
    ghost predicate ChineseTotals()
      reads this
    {
      && 0 <= carriedErrors <= carriedTyped
      && totalTyped == carriedTyped + CountTyped(states)
      && errors == carriedErrors + CountIncorrect(states)
    }

    /** The page as loaded, before the word lists arrive. */
    constructor ()
      ensures Valid() && !active && lang == English
      ensures target == [] && marks == [] && states == [] && cursor == 0
      ensures errors == 0 && totalTyped == 0 && timeLeft == Countdown
    {
      target, marks, states := [], [], [];
      cursor, errors, totalTyped, timeLeft := 0, 0, 0, Countdown;
      active, lang := false, English;
      carriedTyped, carriedErrors := 0, 0;
    }

    /** Whether a span before the cursor shows 'incorrect'
        (hasIncorrectCharactersBefore). */
    function HasIncorrectBefore(): (r: bool)
      reads this
      requires cursor <= |marks|
      ensures r <==> exists j :: 0 <= j < cursor && marks[j] == IncorrectMark
    {
      AnyIncorrect(marks[..cursor])
    }

    /** What the stat readouts show (updateStats). */
    function Stats(): (v: Readout)
      reads this
      requires Valid()
      ensures 0 <= v.accuracy <= 100 && v.errors == errors
      ensures totalTyped == 0 ==> v.accuracy == 0 && v.wpm == Metrics.Count(0)
    {
      Readout(Metrics.Wpm(Metrics.Units(lang, totalTyped), timeLeft),
              Metrics.Accuracy(totalTyped, errors), errors)
    }

    twostate predicate Unchanged()
      reads this
    {
      && target == old(target) && marks == old(marks) && states == old(states)
      && cursor == old(cursor) && errors == old(errors) && totalTyped == old(totalTyped)
      && timeLeft == old(timeLeft) && active == old(active) && lang == old(lang)
    }

    /** The effect of an input accepted at the cursor: the position is marked
        and recorded as matched or not, the cursor moves on by one, one more
        character is typed and, on a mismatch, one more error made; when the
        passage is used up a fresh one from `draws` replaces it, with the
        cursor back at 0 and the totals kept. */
    twostate predicate Accepted(input: seq<char>, draws: seq<seq<char>>)
      reads this
    {
      && old(cursor) < old(|target|) == old(|states|) == old(|marks|)
      && var c := old(cursor);
         var hit := input == [old(target)[c]];
         && active == old(active) && lang == old(lang) && timeLeft == old(timeLeft)
         && totalTyped == old(totalTyped) + 1
         && errors == old(errors) + (if hit then 0 else 1)
         && if c + 1 < old(|target|) then
              && target == old(target) && cursor == c + 1
              && marks == old(marks)[c := MarkFor(hit, old(states)[c])]
              && states == old(states)[c := StateFor(hit)]
            else
              && target == SpanChars(lang, PassageText(lang, draws)) && cursor == 0
              && marks == Unmarked(|target|) && states == Blank(|target|)
    }

    /** The marking of a matched input (markCharacterCorrect). */
    method MarkCorrect()
      requires cursor < |marks| && cursor < |states|
      modifies this
      ensures target == old(target) && cursor == old(cursor) && errors == old(errors)
      ensures marks == old(marks)[cursor := MarkFor(true, old(states)[cursor])]
      ensures states == old(states)[cursor := Correct]
      ensures totalTyped == old(totalTyped) + 1
      ensures timeLeft == old(timeLeft) && active == old(active) && lang == old(lang)
      ensures carriedTyped == old(carriedTyped) && carriedErrors == old(carriedErrors)
    {
      marks := marks[cursor := if states[cursor] == Incorrect then CorrectedMark else CorrectMark];
      states := states[cursor := Correct];
      totalTyped := totalTyped + 1;
    }

    /** The marking of a mismatched input (markCharacterIncorrect). The class
        is added to a span that carries none, so it becomes the only one. */
    method MarkIncorrect()
      requires cursor < |marks| && cursor < |states|
      modifies this
      ensures target == old(target) && cursor == old(cursor)
      ensures marks == old(marks)[cursor := IncorrectMark]
      ensures states == old(states)[cursor := Incorrect]
      ensures errors == old(errors) + 1 && totalTyped == old(totalTyped) + 1
      ensures timeLeft == old(timeLeft) && active == old(active) && lang == old(lang)
      ensures carriedTyped == old(carriedTyped) && carriedErrors == old(carriedErrors)
    {
      marks := marks[cursor := IncorrectMark];
      states := states[cursor := Incorrect];
      errors := errors + 1;
      totalTyped := totalTyped + 1;
    }

    /** moveToNextCharacter, without the 'current' highlight. */
    method MoveToNext()
      modifies this`cursor
      ensures cursor == old(cursor) + 1
    {
      cursor := cursor + 1;
    }

    /** createCharacterSpans and the display of its spans: the passage text
        is shown as spans without classes and the ledger is all 'untyped'. */
    method CreateCharacterSpans(text: seq<char>)
      modifies this
      ensures target == SpanChars(lang, text)
      ensures marks == Unmarked(|target|) && states == Blank(|target|)
      ensures cursor == old(cursor) && errors == old(errors) && totalTyped == old(totalTyped)
      ensures timeLeft == old(timeLeft) && active == old(active) && lang == old(lang)
      ensures carriedTyped == old(carriedTyped) && carriedErrors == old(carriedErrors)
    {
      var spans := SpanChars(lang, text);
      target, marks, states := spans, Unmarked(|spans|), Blank(|spans|);
    }

    /** checkAndUpdateTest: once the cursor has passed the last span, a new
        passage is displayed with a fresh ledger and the cursor at 0; the
        totals are carried over. */
    method CheckAndUpdate(draws: seq<seq<char>>)
      requires |draws| == DrawCount(lang)
      modifies this
      ensures old(cursor) >= old(|target|) ==>
        && target == SpanChars(lang, PassageText(lang, draws)) && cursor == 0
        && marks == Unmarked(|target|) && states == Blank(|target|)
        && carriedTyped == totalTyped && carriedErrors == errors
      ensures old(cursor) < old(|target|) ==>
        && target == old(target) && cursor == old(cursor) && marks == old(marks) && states == old(states)
        && carriedTyped == old(carriedTyped) && carriedErrors == old(carriedErrors)
      ensures errors == old(errors) && totalTyped == old(totalTyped)
      ensures timeLeft == old(timeLeft) && active == old(active) && lang == old(lang)
    {
      if cursor >= |target| {
        var text := GenerateText(lang, draws);
        CreateCharacterSpans(text);
        cursor := 0;
        carriedTyped, carriedErrors := totalTyped, errors;
      }
    }

    /** The common tail of both input handlers: mark the position, move on
        and rotate the passage when it is used up. */
    method Submit(input: seq<char>, draws: seq<seq<char>>)
      requires Valid() && active && cursor < |target| && !HasIncorrectBefore()
      requires |draws| == DrawCount(lang)
      modifies this
      ensures Valid() && Accepted(input, draws)
    {
      ghost var c := cursor;
      ghost var prior := states;
      var hit := input == [target[cursor]];
      if hit {
        MarkCorrect();
      } else {
        MarkIncorrect();
      }
      CountsAfterSet(prior, c, StateFor(hit));
      if c + 1 < |target| {
        AcceptInOrder(old(marks), prior, c, hit, lang == English);
      }
      MoveToNext();
      CheckAndUpdate(draws);
      if cursor == 0 {
        BlankCounts(|target|);
        FreshInOrder(|target|, lang == English);
      }
    }

    /** handleEnglishKeydown, reached only while a session runs in English.
        Backspace steps back over an 'incorrect' span just behind the cursor
        and clears its class, leaving its recorded state and the totals as
        they are; any other key naming one character is accepted unless a
        span before the cursor shows 'incorrect'. */
    method EnglishKeydown(key: seq<char>, draws: seq<seq<char>>)
      requires Valid() && active && lang == English && |draws| == DrawCount(lang)
      modifies this
      ensures Valid()
      ensures key == Backspace ==> EnglishBackspaced()
      ensures key != Backspace && old(cursor) < old(|target|) && |key| == 1 && !old(HasIncorrectBefore()) ==>
        Accepted(key, draws)
      ensures key != Backspace && (old(cursor) >= old(|target|) || |key| != 1 || old(HasIncorrectBefore())) ==>
        Unchanged()
    {
      if key == Backspace {
        if cursor > 0 && marks[cursor - 1] == IncorrectMark {
          EnglishBackspaceInOrder(marks, states, cursor);
          cursor := cursor - 1;
          marks := marks[cursor := NoMark];
        }
        return;
      }
      if cursor >= |target| || |key| != 1 {
        return;
      }
      if HasIncorrectBefore() {
        return;
      }
      Submit(key, draws);
    }

    /** The English Backspace: a step back exactly when the span just behind
        the cursor shows 'incorrect', clearing only that class. */
    twostate predicate EnglishBackspaced()
      reads this
    {
      && target == old(target) && states == old(states)
      && errors == old(errors) && totalTyped == old(totalTyped)
      && timeLeft == old(timeLeft) && active == old(active) && lang == old(lang)
      && if old(cursor) > 0 && old(cursor) <= old(|marks|) && old(marks)[old(cursor) - 1] == IncorrectMark then
           cursor == old(cursor) - 1 && marks == old(marks)[cursor := NoMark]
         else
           cursor == old(cursor) && marks == old(marks)
    }

    /** handleChineseKeydown, reached only while a session runs in Chinese:
        Backspace away from position 0 steps back unconditionally, clears the
        span's class, records it 'untyped', takes one character off the typed
        total and one error off when it was recorded 'incorrect'. */
    method ChineseKeydown(key: seq<char>)
      requires Valid() && active && lang == Chinese
      modifies this
      ensures Valid()
      ensures key == Backspace && old(cursor) > 0 ==> ChineseBackspaced()
      ensures !(key == Backspace && old(cursor) > 0) ==> Unchanged()
    {
      if key == Backspace {
        if cursor > 0 {
          var c := cursor - 1;
          ChineseBackspaceInOrder(marks, states, cursor);
          CountsAfterSet(states, c, Untyped);
          cursor, marks, states, totalTyped, errors :=
            c, marks[c := NoMark], states[c := Untyped], totalTyped - 1,
            if states[c] == Incorrect then errors - 1 else errors;
        }
      }
    }

    twostate predicate ChineseBackspaced()
      reads this
    {
      && 0 < old(cursor) <= old(|states|) == old(|marks|)
      && cursor == old(cursor) - 1
      && target == old(target)
      && marks == old(marks)[cursor := NoMark]
      && states == old(states)[cursor := Untyped]
      && totalTyped == old(totalTyped) - 1
      && errors == old(errors) - (if old(states)[cursor] == Incorrect then 1 else 0)
      && timeLeft == old(timeLeft) && active == old(active) && lang == old(lang)
    }

    /** The document keydown listener: ignored unless a session runs, then
        handed to the handler of the current language. */
    method KeyDown(key: seq<char>, draws: seq<seq<char>>)
      requires Valid() && |draws| == DrawCount(lang)
      modifies this
      ensures Valid()
      ensures !old(active) ==> Unchanged()
      ensures old(active) && old(lang) == English && key == Backspace ==> EnglishBackspaced()
      ensures old(active) && old(lang) == English && key != Backspace && |key| == 1
              && old(cursor) < old(|target|) && !old(HasIncorrectBefore()) ==>
        Accepted(key, draws)
      ensures old(active) && old(lang) == English && key != Backspace
              && (|key| != 1 || old(cursor) >= old(|target|) || old(HasIncorrectBefore())) ==>
        Unchanged()
      ensures old(active) && old(lang) == Chinese && key == Backspace && old(cursor) > 0 ==>
        ChineseBackspaced()
      ensures old(active) && old(lang) == Chinese && !(key == Backspace && old(cursor) > 0) ==>
        Unchanged()
    {
      if !active {
        return;
      }
      if lang == English {
        EnglishKeydown(key, draws);
      } else {
        ChineseKeydown(key);
      }
    }

    /** handleChineseInput: a committed string is ignored when empty, when no
        session runs, when there is no span at the cursor or when a span
        before the cursor shows 'incorrect'; otherwise it is accepted,
        matching when it is exactly the character at the cursor. */
    method ChineseCommit(input: seq<char>, draws: seq<seq<char>>)
      requires Valid() && |draws| == DrawCount(lang)
      modifies this
      ensures Valid()
      ensures input != [] && old(active) && old(cursor) < old(|target|) && !old(HasIncorrectBefore()) ==>
        Accepted(input, draws)
      ensures input == [] || !old(active) || old(cursor) >= old(|target|) || old(HasIncorrectBefore()) ==>
        Unchanged()
    {
      if input == [] || !active {
        return;
      }
      if cursor >= |target| {
        return;
      }
      if HasIncorrectBefore() {
        return;
      }
      Submit(input, draws);
    }

    /** endTest: the session stops and the spans give way to a message; the
        ledger, cursor and totals stay as they were. */
    method EndTest()
      requires Settled()
      modifies this
      ensures Valid() && !active && target == [] && marks == []
      ensures states == old(states) && cursor == old(cursor)
      ensures errors == old(errors) && totalTyped == old(totalTyped)
      ensures timeLeft == old(timeLeft) && lang == old(lang)
    {
      active := false;
      target, marks := [], [];
    }

    /** One second of the countdown: the clock drops by one and the session
        ends once it reaches 0. */
    method Tick()
      requires Valid() && active
      modifies this
      ensures Valid()
      ensures timeLeft == old(timeLeft) - 1
      ensures active <==> timeLeft > 0
      ensures active ==> target == old(target) && marks == old(marks)
      ensures !active ==> target == [] && marks == []
      ensures states == old(states) && cursor == old(cursor)
      ensures errors == old(errors) && totalTyped == old(totalTyped) && lang == old(lang)
    {
      timeLeft := timeLeft - 1;
      if timeLeft <= 0 {
        EndTest();
      }
    }

    /** startTest, offered only while no session runs. Without an English word
        list it only shows a wait message (no spans were displayed anyway);
        otherwise the session starts from zero with a full clock on the
        passage built from `draws`. */
    method StartTest(englishLoaded: bool, draws: seq<seq<char>>)
      requires Valid() && !active && |draws| == DrawCount(lang)
      modifies this
      ensures Valid()
      ensures !englishLoaded ==> Unchanged()
      ensures englishLoaded ==>
        && active && lang == old(lang)
        && cursor == 0 && errors == 0 && totalTyped == 0 && timeLeft == Countdown
        && target == SpanChars(lang, PassageText(lang, draws))
        && marks == Unmarked(|target|) && states == Blank(|target|)
    {
      if !englishLoaded {
        target, marks := [], [];
        return;
      }
      active, cursor, errors, totalTyped, timeLeft := true, 0, 0, 0, Countdown;
      var text := GenerateText(lang, draws);
      CreateCharacterSpans(text);
      carriedTyped, carriedErrors := 0, 0;
      BlankCounts(|target|);
      FreshInOrder(|target|, lang == English);
    }

    /** resetTest: the session stops, everything returns to zero with a full
        clock, the ledger is emptied and the spans give way to a message. */
    method ResetTest()
      modifies this
      ensures Valid() && !active && lang == old(lang)
      ensures cursor == 0 && errors == 0 && totalTyped == 0 && timeLeft == Countdown
      ensures states == [] && target == [] && marks == []
    {
      active, cursor, errors, totalTyped, timeLeft := false, 0, 0, 0, Countdown;
      target, marks, states := [], [], [];
      carriedTyped, carriedErrors := 0, 0;
    }

    /** switchLanguage: the language changes; a running session is reset,
        an idle one is otherwise left alone. */
    method SwitchLanguage(language: Language)
      requires Valid()
      modifies this
      ensures Valid() && lang == language
      ensures old(active) ==>
        && !active && cursor == 0 && errors == 0 && totalTyped == 0 && timeLeft == Countdown
        && states == [] && target == [] && marks == []
      ensures !old(active) ==>
        && !active && target == old(target) && marks == old(marks) && states == old(states)
        && cursor == old(cursor) && errors == old(errors) && totalTyped == old(totalTyped)
        && timeLeft == old(timeLeft)
    {
      lang := language;
      if active {
        ResetTest();
      }
    }
  }
}
