/** Per-position bookkeeping of a typing session: the correctness class a
    character span shows, and the state the session records for it. */
module Ledger {

  /** The correctness class on a character span: none, 'correct',
      'incorrect' or 'corrected'. */
  datatype Mark = NoMark | CorrectMark | IncorrectMark | CorrectedMark

  /** An entry of the recorded per-position states: 'untyped', 'correct'
      or 'incorrect'. */
  datatype CharState = Untyped | Correct | Incorrect

  /** The class a position receives when it is typed: 'incorrect' on a
      mismatch; on a match 'corrected' if its recorded state was
      'incorrect', else 'correct'. */
  function MarkFor(hit: bool, prior: CharState): Mark
  {
    if !hit then IncorrectMark
    else if prior == Incorrect then CorrectedMark
    else CorrectMark
  }

  /** The state recorded for a position when it is typed. */
  function StateFor(hit: bool): CharState
  {
    if hit then Correct else Incorrect
  }

  /** A typed position's class agrees with its recorded state. */
  predicate Shows(m: Mark, s: CharState)
  {
    match m
    case NoMark => false
    case IncorrectMark => s == Incorrect
    case CorrectMark => s == Correct
    case CorrectedMark => s == Correct
  }

  /** A freshly allocated ledger: every position 'untyped'. */
  function Blank(n: nat): seq<CharState>
  {
    seq(n, _ => Untyped)
  }

  /** Freshly created spans: no correctness class anywhere. */
  function Unmarked(n: nat): seq<Mark>
  {
    seq(n, _ => NoMark)
  }

  function TypedWeight(x: CharState): nat
  {
    if x == Untyped then 0 else 1
  }

  function IncorrectWeight(x: CharState): nat
  {
    if x == Incorrect then 1 else 0
  }

  /** Number of positions that are not 'untyped'. */
  function CountTyped(s: seq<CharState>): (n: nat)
    ensures n <= |s|
  {
    if s == [] then 0 else TypedWeight(s[0]) + CountTyped(s[1..])
  }

  /** Number of positions that are 'incorrect'; never more than the typed ones. */
  function CountIncorrect(s: seq<CharState>): (n: nat)
    ensures n <= CountTyped(s)
  {
    if s == [] then 0 else IncorrectWeight(s[0]) + CountIncorrect(s[1..])
  }

  /** Overwriting one entry changes each count by the weight removed and the
      weight added. */
  lemma {:induction false} CountsAfterSet(s: seq<CharState>, i: nat, v: CharState)
    requires i < |s|
    ensures CountTyped(s[i := v]) == CountTyped(s) - TypedWeight(s[i]) + TypedWeight(v)
    ensures CountIncorrect(s[i := v]) == CountIncorrect(s) - IncorrectWeight(s[i]) + IncorrectWeight(v)
  {
    if i == 0 {
      assert s[i := v][1..] == s[1..];
    } else {
      CountsAfterSet(s[1..], i - 1, v);
      assert s[i := v][1..] == s[1..][i - 1 := v];
    }
  }

  /** A fresh ledger counts no typed and no incorrect position. */
  lemma {:induction false} BlankCounts(n: nat)
    ensures CountTyped(Blank(n)) == 0 && CountIncorrect(Blank(n)) == 0
  {
    if n > 0 {
      BlankCounts(n - 1);
      assert Blank(n)[1..] == Blank(n - 1);
    }
  }

  /** Whether some span carries the 'incorrect' class (the `some` over a slice
      of spans). */
  function AnyIncorrect(ms: seq<Mark>): (r: bool)
    ensures r <==> exists j :: 0 <= j < |ms| && ms[j] == IncorrectMark
  {
    if ms == [] then false
    else if ms[0] == IncorrectMark then true
    else AnyIncorrect(ms[1..])
  }
  /** The order a running session keeps its ledger in, with the cursor at
      `cursor`: every position behind the cursor is typed and shows its
      state, only the position just behind the cursor can show 'incorrect',
      nothing at or ahead of the cursor shows a class or (beyond the cursor)
      holds a state, and the only state left at the cursor is the
      'incorrect' an English Backspace leaves behind. Without English
      Backspace no span ever shows 'corrected'. */
  ghost predicate InOrder(marks: seq<Mark>, states: seq<CharState>, cursor: nat, english: bool)
  {
    && |marks| == |states|
    && (cursor < |states| || cursor == |states| == 0)
    && (forall j :: 0 <= j < cursor ==> Shows(marks[j], states[j]))
    && (forall j :: 0 <= j < cursor - 1 ==> marks[j] != IncorrectMark)
    && (forall j :: cursor <= j < |marks| ==> marks[j] == NoMark)
    && (forall j :: cursor < j < |states| ==> states[j] == Untyped)
    && (cursor < |states| && states[cursor] != Untyped ==>
          && english && states[cursor] == Incorrect
          && (cursor == 0 || marks[cursor - 1] != IncorrectMark))
    && (!english ==> forall j :: 0 <= j < |marks| ==> marks[j] != CorrectedMark)
  }

  /** Only the position just behind the cursor can show 'incorrect'. */
  lemma IncorrectOnlyBehindCursor(marks: seq<Mark>, states: seq<CharState>, cursor: nat, english: bool, j: int)
    requires InOrder(marks, states, cursor, english)
    requires 0 <= j < |marks| && marks[j] == IncorrectMark
    ensures j == cursor - 1
  {
  }

  /** A fresh ledger is in order with the cursor at 0. */
  lemma FreshInOrder(n: nat, english: bool)
    ensures InOrder(Unmarked(n), Blank(n), 0, english)
  {
  }

  /** Typing at the cursor while nothing before it shows 'incorrect' keeps
      the ledger in order, one position further on. */
  lemma AcceptInOrder(marks: seq<Mark>, states: seq<CharState>, c: nat, hit: bool, english: bool)
    requires InOrder(marks, states, c, english) && c + 1 < |states|
    requires forall j :: 0 <= j < c ==> marks[j] != IncorrectMark
    ensures InOrder(marks[c := MarkFor(hit, states[c])], states[c := StateFor(hit)], c + 1, english)
  {
    var m, s := marks[c := MarkFor(hit, states[c])], states[c := StateFor(hit)];
    assert Shows(m[c], s[c]);
    assert forall j :: 0 <= j < c + 1 ==> Shows(m[j], s[j]);
  }

  /** The English Backspace over an 'incorrect' span keeps the ledger in
      order one position back, leaving the state 'incorrect' at the cursor. */
  lemma EnglishBackspaceInOrder(marks: seq<Mark>, states: seq<CharState>, c: nat)
    requires InOrder(marks, states, c, true) && 0 < c && marks[c - 1] == IncorrectMark
    ensures InOrder(marks[c - 1 := NoMark], states, c - 1, true)
    ensures states[c - 1] == Incorrect
  {
    assert Shows(marks[c - 1], states[c - 1]);
  }

  /** The Chinese Backspace keeps the ledger in order one position back, and
      the position it clears was typed. */
  lemma ChineseBackspaceInOrder(marks: seq<Mark>, states: seq<CharState>, c: nat)
    requires InOrder(marks, states, c, false) && 0 < c
    ensures InOrder(marks[c - 1 := NoMark], states[c - 1 := Untyped], c - 1, false)
    ensures states[c - 1] != Untyped
  {
    assert Shows(marks[c - 1], states[c - 1]);
  }
}
