# Typing practice: the session state machine

A model of the typing test in `script.js`. A timed session shows a passage as
character spans. In English the typist presses keys. In Chinese the typist
commits strings through an input method. Each accepted input marks the
character at the cursor as correct, corrected or incorrect, records its state
and moves the cursor on. Input is refused while an earlier span still shows
'incorrect', so errors are corrected strictly left to right. When the passage
is used up a fresh one replaces it and the totals carry over. A 60-second
countdown, ticking once a second, ends the session.

The project has four modules:

- `Ledger` (`ledger.dfy`) holds the values kept per position:
  - the class a span shows (`Mark`);
  - the state recorded in `characterStates` (`CharState`);
  - their counts;
  - the order a running session keeps them in (`InOrder`), with one
    preservation lemma per kind of step.
- `Passage` (`passage.dfy`) covers the passage text:
  - `generateText`, a loop over the words already drawn, proved equal to a
    declarative `PassageText`;
  - `split(' ')` and the spans a passage is displayed as;
  - the facts that the English spans are the text plus one trailing space,
    and that splitting space-free words joined by spaces gives the words
    back.
- `Metrics` (`metrics.dfy`) holds the `updateStats` formulas in exact
  rational arithmetic, with `Math.round` rounding halves upwards.
- `TypingTest` (`session.dfy`) holds the `Session` class, a field per
  module-level variable of the page and a method per handler:
  - the fields are the spans' text (`target`), their classes (`marks`),
    `characterStates` (`states`), `currentIndex` (`cursor`), `errors`,
    `totalTyped`, `timeLeft`, `isTestActive` (`active`) and
    `currentLanguage` (`lang`);
  - every handler and lifecycle method (`Submit`, the keydown handlers and
    their listener, `ChineseCommit`, `EndTest`, `Tick`, `StartTest`,
    `ResetTest`, `SwitchLanguage`) keeps the invariant `Valid()`;
  - the marking, advancing and rotation helpers (`MarkCorrect`,
    `MarkIncorrect`, `MoveToNext`, `CreateCharacterSpans`, `CheckAndUpdate`)
    state only their effect on the fields, since the invariant holds again
    only after the whole step;
  - every method states its whole new state: directly, or through the
    two-state predicates `Accepted`, `EnglishBackspaced`,
    `ChineseBackspaced` and `Unchanged`.

`Valid()` says what holds between events:

- `errors <= totalTyped` and `0 <= timeLeft <= 60`.
- While no session runs, no spans are displayed.
- While a session runs:
  - the clock has time left;
  - every position behind the cursor shows a class agreeing with its
    recorded state;
  - only the position just behind the cursor can show 'incorrect';
  - nothing at or after the cursor shows a class;
  - nothing after the cursor holds a state;
  - in Chinese no span shows 'corrected', and `totalTyped` and `errors` are
    the carried-over totals plus the number of typed and of 'incorrect'
    entries of the current ledger.

Random draws are parameters: `draws` is the words or entries a passage is
built from. The word lists' arrival is the parameter `englishLoaded` of
`StartTest`.

Some behaviours of the code are easy to get wrong, and the model keeps them
as the code has them:

- **English Backspace.** It does not undo the keystroke. It only removes the
  'incorrect' class from the span just behind the cursor and steps back
  (`script.js:212-220`). The recorded state stays 'incorrect', and
  `totalTyped` and `errors` do not drop. A correct retype therefore shows
  'corrected' (`script.js:306-307`) and counts as one more typed character.
  Only the Chinese Backspace resets the state to 'untyped' and takes the
  character off the totals.
- **Speed before the first tick.** A zero elapsed time does not give a speed
  of 0 once at least one unit is typed: three English characters (a rounded
  fifth of the characters, `script.js:70`) or one Chinese character. The
  units divided by a zero elapsed time then give `Infinity`, which `|| 0`
  does not catch (`script.js:72`). With no unit yet, `0 / 0` is `NaN`, which
  `|| 0` turns into 0. `Metrics.Wpm` returns `Infinity` and 0 in those cases.
- **Ledger length.** The ledger is not as long as the English spans. The
  code allocates `characterStates` with the text's length (`script.js:97`).
  The English spans are one longer, because every word is followed by a
  space span (`script.js:111-114`). A write one past the end extends the
  array, and a read there is not 'incorrect'. The model's ledger covers every
  span.
- **Language switch order.** The language changes first and the reset
  follows (`script.js:49, 58`). The reset does not touch the language, so the
  resulting state is the same as resetting first.

## Model

| member | source | states |
|---|---|---|
| Ledger.MarkFor | script.js:304-317 | The class a typed position receives: 'incorrect' on a mismatch; on a match 'corrected' if its recorded state was 'incorrect', else 'correct'. |
| Ledger.StateFor | script.js:311-317 | The state recorded for a typed position: 'correct' on a match, 'incorrect' on a mismatch. |
| Ledger.Blank | script.js:97 | The freshly allocated ledger: every position 'untyped'. |
| Ledger.InOrder | script.js:207-327 | The invariant of a running session's ledger. Every position behind the cursor shows a class agreeing with its state. Only the position just behind the cursor can show 'incorrect'. Nothing at or after the cursor shows a class, and nothing after it holds a state. A state at the cursor is only the 'incorrect' an English Backspace leaves. In Chinese no span shows 'corrected'. |
| Ledger.Unmarked | script.js:105-124 | Freshly created spans: no span shows a correctness class. |
| Ledger.CountTyped | script.js:289-290 | The number of typed positions is never more than the number of positions. |
| Ledger.CountIncorrect | script.js:285-287 | The number of 'incorrect' positions is never more than the number of typed ones. |
| Ledger.CountsAfterSet | script.js:285-290 | Overwriting one recorded state changes the typed count and the 'incorrect' count by exactly the weight removed and the weight added. |
| Ledger.BlankCounts | script.js:97 | A freshly allocated, all-'untyped' ledger counts no typed and no 'incorrect' position. |
| Ledger.AnyIncorrect | script.js:301 | True exactly when some span of the slice shows 'incorrect'. |
| Ledger.IncorrectOnlyBehindCursor | script.js:213-216 | In an ordered ledger, a span showing 'incorrect' is the one just behind the cursor. |
| Ledger.FreshInOrder | script.js:96-97 | Fresh spans over a fresh ledger are in order with the cursor at 0. |
| Ledger.AcceptInOrder | script.js:304-327 | Marking the cursor position, as matched or not, keeps the ledger in order one position on, when no earlier span shows 'incorrect' and the cursor is before the last span (at the last span the passage rotates and `FreshInOrder` applies). |
| Ledger.EnglishBackspaceInOrder | script.js:212-220 | Clearing the 'incorrect' class just behind the cursor keeps the ledger in order one position back, and that position's state remains 'incorrect'. |
| Ledger.ChineseBackspaceInOrder | script.js:268-291 | Clearing the class and the state just behind the cursor keeps the ledger in order one position back, and that position was typed. |
| Passage.Upper | script.js:87 | Upper-casing of one character: ASCII lower-case letters become upper-case, every other character is unchanged. |
| Passage.CapitaliseSentenceStarts | script.js:86-87 | The drawn words with the first word of every ten-word sentence (words 0, 10, …) capitalised and every other word unchanged. |
| Passage.DrawCount | script.js:80-94 | 70 words are drawn for an English passage and 100 entries for a Chinese one. |
| Passage.Capitalise | script.js:87 | The word with its first character upper-cased; the empty word stays empty. |
| Passage.JoinSpaced | script.js:88-91 | `join(' ')`: the parts with one space between neighbours. |
| Passage.Concat | script.js:93 | `join('')`: the parts run together. |
| Passage.PassageText | script.js:80-94 | What a passage is: in English the drawn words joined by single spaces with every tenth word, from the first, capitalised; in Chinese the drawn entries run together. |
| Passage.GenerateText | script.js:80-94 | The loop of seven ten-word sentences yields the 70 words joined by single spaces, with words 0, 10, …, 60 capitalised. Chinese yields the 100 entries run together. |
| Passage.SentenceWords | script.js:86-87 | One sentence of ten words with its first word capitalised is the matching stretch of the words with every sentence start capitalised. |
| Passage.SentenceAppend | script.js:88-91 | Pushing the next joined sentence onto the sentences so far joins the words one sentence further. |
| Passage.JoinSpacedAppend | script.js:88-91 | Joining two non-empty lists equals joining each and putting one space between them. This is why joined sentences equal the joined words. |
| Passage.SplitSpaces | script.js:100 | `split(' ')` always yields at least one piece. |
| Passage.WordSpans | script.js:100-117 | Each word's characters, each word followed by one space span. |
| Passage.SpanChars | script.js:99-125 | The characters of the displayed spans: English words with their space spans, or each Chinese character. |
| Passage.EnglishSpans | script.js:99-117 | The English spans spell the passage text followed by exactly one space. |
| Passage.SplitAfterWord | script.js:100 | Splitting a text led by a space-free word puts that word in front of the first piece of the rest. |
| Passage.SplitJoin | script.js:88-91 | Splitting space-free words joined by spaces gives the words back. |
| Metrics.RoundDiv | script.js:70-73 | `Math.round(n / d)` is the integer r with n/d − 1/2 < r ≤ n/d + 1/2: the nearest integer, halves going up. |
| Metrics.Accuracy | script.js:73 | 0 when nothing was typed. Otherwise the rounded percentage of characters that were not errors, which lies between 0 and 100. |
| Metrics.Units | script.js:69-71 | English: the character count divided by 5, rounded. Chinese: the character count. |
| Metrics.Wpm | script.js:68-72 | 0 for no units. `Infinity` exactly for some units before any time has elapsed. Otherwise the units per elapsed minute, rounded and non-negative. |
| Metrics.AccuracyFull | script.js:73 | Accuracy reads 100 exactly when at most one character in 200 was an error. |
| Metrics.AccuracyAntitone | script.js:73 | More errors over the same typed count never raise accuracy. |
| Metrics.RoundDivRange | script.js:73 | A rounded quotient of a numerator between 0 and k times the denominator lies between 0 and k. |
| Metrics.WorkedExamples | script.js:67-73 | 10 typed with 3 errors reads 70%. Nothing typed reads 0%. 250 English characters in a full minute read 50 wpm. |
| TypingTest.Session.constructor | script.js:13-26 | The page starts idle in English with zero totals, a full clock and empty sequences. The invariant holds. |
| TypingTest.Session.Valid | script.js:207-347 | The invariant between events. `errors <= totalTyped` and the clock is within 0..60. An idle page shows no spans. A running session has time left and its ledger in order (`Ledger.InOrder`). In Chinese its totals are the carried-over totals plus the counts of the current ledger. |
| TypingTest.Session.Accepted | script.js:304-347 | The effect of an accepted input: the mark and state at the cursor set by whether the input matched, the cursor one on, one more typed, one more error exactly on a mismatch. At the end of the passage, a fresh passage from `draws` with a fresh ledger and the cursor at 0, with the totals kept. |
| TypingTest.Session.EnglishBackspaced | script.js:212-220 | The English Backspace: a step back and the 'incorrect' class cleared exactly when the span just behind the cursor shows it, else nothing. States and totals do not change either way. |
| TypingTest.Session.ChineseBackspaced | script.js:268-291 | The Chinese Backspace: one step back; the class there cleared and the state 'untyped'; one fewer typed; one fewer error exactly when the state was 'incorrect'. |
| TypingTest.Session.HasIncorrectBefore | script.js:299-302 | True exactly when some span before the cursor shows 'incorrect'. |
| TypingTest.Session.Stats | script.js:67-78 | Accuracy between 0 and 100. The error readout is `errors`. With nothing typed, both accuracy and speed read 0. |
| TypingTest.Session.MarkCorrect | script.js:304-313 | The span at the cursor shows 'corrected' if its state was 'incorrect', else 'correct'. Its state becomes 'correct', one more character is typed, and nothing else changes. |
| TypingTest.Session.MarkIncorrect | script.js:315-320 | The span at the cursor shows 'incorrect' and its state becomes 'incorrect'. `errors` and `totalTyped` each go up by one, and nothing else changes. |
| TypingTest.Session.MoveToNext | script.js:322-332 | The cursor moves on by exactly one. Only the cursor changes. |
| TypingTest.Session.CreateCharacterSpans | script.js:96-126 | The spans spell the text's span characters with no classes. The ledger is all 'untyped' over every span. Nothing else changes. |
| TypingTest.Session.CheckAndUpdate | script.js:334-347 | Past the last span: the spans of the passage built from `draws`, a fresh ledger, the cursor at 0, and the totals kept and carried over. Otherwise nothing changes. |
| TypingTest.Session.Submit | script.js:229-237 | Accepting an input keeps the invariant and has exactly the effect `Accepted` describes: mark and state at the cursor, cursor +1, one more typed, one more error exactly on a mismatch, and rotation at the end of the passage with the totals kept. |
| TypingTest.Session.EnglishKeydown | script.js:207-238 | Backspace steps back only over an 'incorrect' span just behind the cursor and clears only its class. A one-character key at a span, with no 'incorrect' span before the cursor, is accepted. Every other key changes nothing. The invariant is kept. |
| TypingTest.Session.ChineseKeydown | script.js:266-297 | Backspace past position 0 steps back unconditionally and clears the class and the state there. `totalTyped` drops by one, and `errors` drops by one exactly when the state was 'incorrect'. Every other case changes nothing. The invariant is kept. |
| TypingTest.Session.KeyDown | script.js:360-367 | An idle session ignores keys. A running one hands them to its language's handler with that handler's effect. In English, Backspace acts as `EnglishBackspaced` says; an accepted key acts as `Accepted` says; a key that is not one character, falls past the last span or comes while an earlier span shows 'incorrect' changes nothing. In Chinese, Backspace past position 0 acts as `ChineseBackspaced` says, and every other key changes nothing. The invariant is kept. |
| TypingTest.Session.ChineseCommit | script.js:240-264 | An empty commit, an idle session, no span at the cursor, or an 'incorrect' span before the cursor: nothing changes. Otherwise the input is accepted as `Accepted` describes, matching only when it is exactly the cursor's character. |
| TypingTest.Session.EndTest | script.js:164-169 | The session stops and no spans remain. The ledger, cursor, totals, clock and language are as they were, and the invariant holds. |
| TypingTest.Session.Tick | script.js:151-156 | The clock drops by one. The session stays active exactly while time is left, and otherwise ends with no spans. Nothing else changes. |
| TypingTest.Session.StartTest | script.js:128-162 | Without the English word list nothing changes. Otherwise the session runs with cursor 0, zero totals and 60 seconds, on the spans of the passage built from `draws` with a fresh ledger. |
| TypingTest.Session.ResetTest | script.js:171-196 | Idle, zero totals, 60 seconds, an empty ledger and no spans, from any state. |
| TypingTest.Session.SwitchLanguage | script.js:48-59 | The language becomes the one chosen. A running session is reset, and an idle one is otherwise left as it was. |

## Left out

- Loading the word lists (`loadWords`, `script.js:29-46`) is network input and JSON parsing. `StartTest` takes only whether the English list has arrived.
- The random choice of words (`getRandomWords`, `script.js:61-65`) is nondeterministic. The drawn words or entries are a parameter.
- The DOM is rendering only:
  - creating spans and setting their text;
  - the 'current' highlight;
  - the button `disabled` flags;
  - focus and blur of the input field;
  - `updateImePosition` (`script.js:198-205`);
  - the message texts.
- Timer scheduling is not modelled. `setInterval` and `clearInterval` are out, and the tick body is the method `Tick`. A second interval started by re-entering `startTest` is out too, because `StartTest` is offered only while no session runs (the button is disabled then).
- The composition, input and click listeners (`script.js:350-408`) are out. They depend on the browser's event order, and two of them call functions that the file does not define. `ChineseCommit` is what a commit reaching `handleChineseInput` does with the committed string. Clearing the input field and `preventDefault` have no effect on the modelled state.
- Metrics.Accuracy: computes the exact ratio, so it can read one point higher than the page near a half. The page computes `((totalTyped - errors) / totalTyped) * 100` in doubles (`script.js:73`), which can land just below a half. For example, 23 / 40 × 100 gives 57.49999999999999, so the page shows 57 where the model gives 58.
- Metrics.Wpm: computes the exact ratio, where the page divides in doubles (`script.js:68, 72`).
- Passage.Upper: capitalises ASCII letters only, where `toUpperCase` handles all of Unicode.
- String lengths count characters, where JavaScript counts UTF-16 code units (`event.key.length`, `split('')`).
- Metrics.Accuracy: defined only for `0 <= errors <= totalTyped`, which the session invariant guarantees.
- TypingTest.Session.EnglishKeydown: requires a running English session, because the document listener is the only caller (`KeyDown` models that listener).
- TypingTest.Session.ChineseKeydown: requires a running Chinese session, for the same reason.
- TypingTest.Session.Tick: requires a running session, because endTest and resetTest clear the interval first (`script.js:165, 172`).
- TypingTest.Session.StartTest: requires an idle session, because the Start button is disabled while a session runs.
