/** The display task: the editor for a new speed, its validation, and the messages it reacts to. */
module Display {
  import opened Bytes
  import opened Messages
  import opened OsTimer
  import Control

  const BACKSPACE := 10
  const ENTER := 11
  const ZERO := 48 // '0'

  datatype Mode = InitDisplay | RefreshDisplay | IdleDisplay | NewActualRps | FirstKeyPress
                | NextKeyPress | ValidateInput | DisplayError

  /** The three characters typed so far, NUL where nothing was typed. */
  type Digits = d: seq<byte> | |d| == 3 ghost witness [0, 0, 0]

  datatype State = State(
    mode: Mode,
    actual: u16, current: u16, input: u16, demand: u16,
    initComplete: bool, keyPressed: bool,
    cursor: u16,
    key: byte,
    digits: Digits,
    errorTimer: Timer)

  /** The cursor stays on the three digit columns while a number is being edited. */
  ghost predicate CursorOk(d: State) {
    d.mode.NextKeyPress? ==> 9 <= d.cursor <= 12
  }

  predicate IsDigit(b: byte) { ZERO <= b <= ZERO + 9 }

  function FillZero(b: byte): byte { if b == 0 then ZERO else b }

  function Filled(d: Digits): Digits { [FillZero(d[0]), FillZero(d[1]), FillZero(d[2])] }

  /** `sscanf("%d")` on three characters: the leading digits as a number, nothing stored if the
      first one is not a digit. */
  function Scan(d: Digits, before: u16): u16 {
    if !IsDigit(d[0]) then before
    else if !IsDigit(d[1]) then d[0] - ZERO
    else if !IsDigit(d[2]) then 10 * (d[0] as int - ZERO) + (d[1] as int - ZERO)
    else 100 * (d[0] as int - ZERO) + 10 * (d[1] as int - ZERO) + (d[2] as int - ZERO)
  }

  /** The consumption of one key while editing. */
  function Consume(d: State): State
    requires d.mode.NextKeyPress? && CursorOk(d)
  {
    if d.key == BACKSPACE && d.cursor > 9 then
      d.(cursor := d.cursor - 1, digits := d.digits[d.cursor - 10 := 0])
    else if d.key == ENTER then
      d.(digits := Filled(d.digits), input := Scan(Filled(d.digits), d.input), mode := ValidateInput)
    else if d.cursor < 12 && d.key < 10 then
      d.(digits := d.digits[d.cursor - 9 := d.key + ZERO], cursor := d.cursor + 1)
    else d
  }

  function TaskStep(d: State, now: nat): (r: (State, seq<Note>))
    requires CursorOk(d)
    ensures CursorOk(r.0)
  {
    match d.mode
    case InitDisplay => (if d.initComplete then d.(mode := RefreshDisplay) else d, [])
    case RefreshDisplay => (d.(mode := IdleDisplay), [])
    case IdleDisplay =>
      if d.keyPressed && d.key < 10 then (d.(keyPressed := false, mode := FirstKeyPress), [])
      else if d.actual != d.current then (d.(current := d.actual, mode := NewActualRps), [])
      else (d, [])
    case NewActualRps => (d.(mode := IdleDisplay), [])
    case FirstKeyPress =>
      (d.(digits := [(d.key + ZERO) % 256, 0, 0], cursor := 10, mode := NextKeyPress), [])
    case NextKeyPress =>
      (if d.keyPressed then Consume(d.(keyPressed := false)) else d, [])
    case ValidateInput =>
      if Control.Admissible(d.input) then
        (d.(demand := d.input, mode := RefreshDisplay), [Note(MSG_ID_NEW_RPS_ENTERED, Value(d.input))])
      else (d.(errorTimer := Apply(d.errorTimer, Set(2000), now), mode := DisplayError), [])
    case DisplayError =>
      (if Expired(d.errorTimer, now) then d.(mode := RefreshDisplay) else d, [])
  }

  function HandleStep(d: State, id: int, w: u16): (d': State)
    ensures CursorOk(d) ==> CursorOk(d')
  {
    if id == MSG_ID_INIT_COMPLETE then d.(initComplete := true)
    else if id == MSG_ID_NEW_ACTUAL_RPS then d.(actual := w)
    else if id == MSG_ID_KEY_PRESSED then d.(keyPressed := true, key := w % 256)
    else d
  }

  ghost function Initial(now: nat): State {
    State(InitDisplay, 0, 0, 0, 0, false, false, 9, 0, [0, 0, 0], Fresh(0, now))
  }

  class Display {
    var displayState: Mode
    var actualRps: u16
    var currentRps: u16
    var inputRps: u16
    var demandRps: u16
    var initComplete: bool
    var isKeyPressed: bool
    var cursorPosition: u16
    var currentKey: byte
    const userInputValues: array<byte>
    const errorTimer: OSTimer

    ghost predicate Ok()
      reads this, userInputValues
    {
      userInputValues.Length == 3 && (displayState.NextKeyPress? ==> 9 <= cursorPosition <= 12)
    }

    ghost function View(): (d: State)
      requires Ok()
      reads this, userInputValues, errorTimer
      ensures CursorOk(d)
    {
      State(displayState, actualRps, currentRps, inputRps, demandRps, initComplete, isKeyPressed,
            cursorPosition, currentKey, userInputValues[..], errorTimer.View())
    }

    constructor (now: nat)
      ensures Ok() && View() == Initial(now)
      ensures fresh(userInputValues) && fresh(errorTimer)
    {
      displayState := InitDisplay;
      actualRps, currentRps, inputRps, demandRps := 0, 0, 0, 0;
      initComplete, isKeyPressed, cursorPosition, currentKey := false, false, 9, 0;
      userInputValues := new byte[3](_ => 0);
      errorTimer := new OSTimer(0, now);
    }

    method TaskLoop(now: nat) returns (posts: seq<Note>)
      requires Ok()
      modifies this, userInputValues, errorTimer
      ensures Ok() && (View(), posts) == TaskStep(old(View()), now)
    {
      posts := [];
      match displayState {
        case InitDisplay =>
          if initComplete {
            displayState := RefreshDisplay;
          }
        case RefreshDisplay => displayState := IdleDisplay;
        case IdleDisplay =>
          if isKeyPressed && currentKey < 10 {
            isKeyPressed := false;
            displayState := FirstKeyPress;
          } else if actualRps != currentRps {
            currentRps := actualRps;
            displayState := NewActualRps;
          }
        case NewActualRps => displayState := IdleDisplay;
        case FirstKeyPress => StartEditing();
        case NextKeyPress =>
          if isKeyPressed {
            isKeyPressed := false;
            TakeKey();
          }
        case ValidateInput =>
          if Control.Admissible(inputRps) {
            demandRps := inputRps;
            posts := [Note(MSG_ID_NEW_RPS_ENTERED, Value(inputRps))];
            displayState := RefreshDisplay;
          } else {
            errorTimer.SetTimeout(2000, now);
            displayState := DisplayError;
          }
        case DisplayError =>
          var expired := errorTimer.IsExpired(now);
          if expired {
            displayState := RefreshDisplay;
          }
      }
    }

    method StartEditing()
      requires Ok()
      modifies `cursorPosition, `displayState, userInputValues
      ensures Ok() && displayState == NextKeyPress && cursorPosition == 10
      ensures userInputValues[..] == [(currentKey + ZERO) % 256, 0, 0]
    {
      cursorPosition := 9;
      for i := 0 to 3
        modifies userInputValues
        invariant forall k :: 0 <= k < i ==> userInputValues[k] == 0
      {
        userInputValues[i] := 0;
      }
      userInputValues[0] := (currentKey + ZERO) % 256;
      cursorPosition := cursorPosition + 1;
      displayState := NextKeyPress;
    }

    /** Backspace, enter, or one more digit. */
    method TakeKey()
      requires Ok() && displayState.NextKeyPress?
      modifies `cursorPosition, `inputRps, `displayState, userInputValues
      ensures Ok() && View() == Consume(old(View()))
    {
      if currentKey == BACKSPACE && cursorPosition > 9 {
        cursorPosition := cursorPosition - 1;
        userInputValues[cursorPosition - 9] := 0;
      } else if currentKey == ENTER {
        ghost var typed := userInputValues[..];
        for i := 0 to 3
          modifies userInputValues
          invariant forall k :: 0 <= k < 3 ==> userInputValues[k] == if k < i then FillZero(typed[k]) else typed[k]
        {
          if userInputValues[i] == 0 {
            userInputValues[i] := ZERO;
          }
        }
        assert userInputValues[..] == Filled(typed);
        inputRps := Scan(userInputValues[..], inputRps);
        displayState := ValidateInput;
      } else if cursorPosition < 12 && currentKey < 10 {
        userInputValues[cursorPosition - 9] := currentKey + ZERO;
        cursorPosition := cursorPosition + 1;
      }
    }

    method EventHandler(id: int, w: u16)
      requires Ok()
      modifies this
      ensures Ok() && View() == HandleStep(old(View()), id, w)
    {
      if id == MSG_ID_INIT_COMPLETE {
        initComplete := true;
      } else if id == MSG_ID_NEW_ACTUAL_RPS {
        actualRps := w;
      } else if id == MSG_ID_KEY_PRESSED {
        isKeyPressed := true;
        currentKey := w % 256;
      }
    }
  }

  // ---------- The editor refines a bounded stack ----------

  /** What a key does to the digits entered so far. */
  function Push(stack: seq<nat>, key: nat): seq<nat> {
    if key == BACKSPACE then (if stack == [] then [] else stack[..|stack| - 1])
    else if key < 10 && |stack| < 3 then stack + [key]
    else stack
  }

  ghost predicate IsStack(stack: seq<nat>) {
    |stack| <= 3 && forall i :: 0 <= i < |stack| ==> stack[i] < 10
  }

  function Digit(stack: seq<nat>, i: nat): byte
    requires IsStack(stack)
  {
    if i < |stack| then stack[i] + ZERO else 0
  }

  /** The number that enter makes of the digits: padded on the right with zeros. */
  function Entered(stack: seq<nat>): u16
    requires IsStack(stack)
  {
    if |stack| == 0 then 0
    else if |stack| == 1 then 100 * stack[0]
    else if |stack| == 2 then 100 * stack[0] + 10 * stack[1]
    else 100 * stack[0] + 10 * stack[1] + stack[2]
  }

  /** The buffer and the cursor show exactly this stack, no key waiting. */
  ghost predicate Shows(d: State, stack: seq<nat>) {
    && d.mode.NextKeyPress? && !d.keyPressed && IsStack(stack)
    && d.cursor == 9 + |stack|
    && d.digits == [Digit(stack, 0), Digit(stack, 1), Digit(stack, 2)]
  }

  datatype Event = Key(w: u16) | Message(id: int, w: u16) | Loop(now: nat)

  function Next(d: State, e: Event): (r: (State, seq<Note>))
    requires CursorOk(d)
    ensures CursorOk(r.0)
  {
    match e
    case Key(w) => (HandleStep(d, MSG_ID_KEY_PRESSED, w), [])
    case Message(id, w) => (HandleStep(d, id, w), [])
    case Loop(now) => TaskStep(d, now)
  }

  function Run(d: State, es: seq<Event>): (d': State)
    requires CursorOk(d)
    ensures CursorOk(d')
    decreases |es|
  {
    if es == [] then d else Next(Run(d, es[..|es| - 1]), es[|es| - 1]).0
  }

  /** Everything posted during a run. */
  function Posts(d: State, es: seq<Event>): seq<Note>
    requires CursorOk(d)
    decreases |es|
  {
    if es == [] then []
    else Posts(d, es[..|es| - 1]) + Next(Run(d, es[..|es| - 1]), es[|es| - 1]).1
  }

  lemma {:induction false} RunConcat(d: State, a: seq<Event>, b: seq<Event>)
    requires CursorOk(d)
    ensures Run(d, a + b) == Run(Run(d, a), b) && Posts(d, a + b) == Posts(d, a) + Posts(Run(d, a), b)
    decreases |b|
  {
    hide Next;
    if b == [] {
      assert a + b == a;
    } else {
      assert (a + b)[..|a + b| - 1] == a + b[..|b| - 1];
      RunConcat(d, a, b[..|b| - 1]);
    }
  }

  lemma RunOne(d: State, e: Event)
    requires CursorOk(d)
    ensures Run(d, [e]) == Next(d, e).0 && Posts(d, [e]) == Next(d, e).1
  {
    assert [e][..0] == [];
  }

  /** A task step, or a message that is not a key. */
  predicate Quiet(e: Event) {
    e.Loop? || (e.Message? && e.id != MSG_ID_KEY_PRESSED)
  }

  predicate AllQuiet(es: seq<Event>) { forall e <- es :: Quiet(e) }

  function Loops(es: seq<Event>): nat {
    if es == [] then 0 else Loops(es[..|es| - 1]) + if es[|es| - 1].Loop? then 1 else 0
  }

  /** What is left of a countdown of `n` task steps. */
  function Down(n: nat, es: seq<Event>): nat {
    if Loops(es) < n then n - Loops(es) else 0
  }

  // ---------- The first digit ----------

  /** How many task steps the first digit takes when it is pressed in this mode; none where it opens no entry. */
  function Needed(mode: Mode): nat {
    match mode
    case IdleDisplay => 2
    case NewActualRps => 3
    case RefreshDisplay => 3
    case _ => 0
  }

  /** Digit `k` was pressed to begin an entry, and `n` task steps are left until it is shown. */
  ghost predicate Opening(d: State, k: u16, n: nat) {
    match n
    case 0 => Shows(d, [k])
    case 1 => d.mode.FirstKeyPress? && !d.keyPressed && d.key == k
    case _ => n == Needed(d.mode) && d.keyPressed && d.key == k
  }

  lemma OpeningStep(d: State, k: u16, n: nat, e: Event)
    requires CursorOk(d) && Opening(d, k, n) && k < 10 && Quiet(e)
    ensures Opening(Next(d, e).0, k, if e.Loop? && n > 0 then n - 1 else n) && Next(d, e).1 == []
  {
  }

  lemma {:induction false} OpeningRun(d: State, k: u16, n: nat, es: seq<Event>)
    requires CursorOk(d) && Opening(d, k, n) && k < 10 && AllQuiet(es)
    ensures Opening(Run(d, es), k, Down(n, es)) && Posts(d, es) == []
    decreases |es|
  {
    hide Opening, Next;
    if es != [] {
      assert Quiet(es[|es| - 1]);
      OpeningRun(d, k, n, es[..|es| - 1]);
      OpeningStep(Run(d, es[..|es| - 1]), k, Down(n, es[..|es| - 1]), es[|es| - 1]);
    }
  }

  // ---------- One more key ----------

  /** Key `k` was pressed while the stack was shown, and `n` task steps are left until it is consumed. */
  ghost predicate Taking(d: State, stack: seq<nat>, k: u16, n: nat) {
    if n == 0 then Shows(d, Push(stack, k))
    else n == 1 && d.keyPressed && d.key == k && Shows(d.(keyPressed := false), stack)
  }

  lemma TakingStep(d: State, stack: seq<nat>, k: u16, n: nat, e: Event)
    requires CursorOk(d) && Taking(d, stack, k, n) && k <= BACKSPACE && Quiet(e)
    ensures Taking(Next(d, e).0, stack, k, if e.Loop? then 0 else n) && Next(d, e).1 == []
  {
    hide Entered, Control.Admissible;
    var stack' := Push(stack, k);
    assert IsStack(stack');
  }

  lemma {:induction false} TakingRun(d: State, stack: seq<nat>, k: u16, es: seq<Event>)
    requires CursorOk(d) && Taking(d, stack, k, 1) && k <= BACKSPACE && AllQuiet(es)
    ensures Taking(Run(d, es), stack, k, Down(1, es)) && Posts(d, es) == []
    decreases |es|
  {
    hide Taking, Next;
    if es != [] {
      assert Quiet(es[|es| - 1]);
      TakingRun(d, stack, k, es[..|es| - 1]);
      TakingStep(Run(d, es[..|es| - 1]), stack, k, Down(1, es[..|es| - 1]), es[|es| - 1]);
    }
  }

  // ---------- Enter ----------

  /** Enter was pressed while the stack was shown, and `n` task steps are left until the entry is over. */
  ghost predicate Entering(d: State, stack: seq<nat>, n: nat) {
    match n
    case 0 => (d.mode.RefreshDisplay? || d.mode.IdleDisplay? || d.mode.NewActualRps? || d.mode.DisplayError?) && !d.keyPressed
    case 1 => d.mode.ValidateInput? && !d.keyPressed && IsStack(stack) && d.input == Entered(stack)
    case _ => n == 2 && d.keyPressed && d.key == ENTER && Shows(d.(keyPressed := false), stack)
  }

  /** What the entry of this stack posts. */
  function Verdict(stack: seq<nat>): seq<Note>
    requires IsStack(stack)
  {
    if Control.Admissible(Entered(stack)) then [Note(MSG_ID_NEW_RPS_ENTERED, Value(Entered(stack)))] else []
  }

  lemma EnteringStep(d: State, stack: seq<nat>, n: nat, e: Event)
    requires CursorOk(d) && Entering(d, stack, n) && IsStack(stack) && Quiet(e)
    ensures Entering(Next(d, e).0, stack, if e.Loop? && n > 0 then n - 1 else n)
    ensures Next(d, e).1 == if e.Loop? && n == 1 then Verdict(stack) else []
  {
  }

  lemma {:induction false} EnteringRun(d: State, stack: seq<nat>, es: seq<Event>)
    requires CursorOk(d) && Entering(d, stack, 2) && IsStack(stack) && AllQuiet(es)
    ensures Entering(Run(d, es), stack, Down(2, es))
    ensures Posts(d, es) == if Loops(es) < 2 then [] else Verdict(stack)
    decreases |es|
  {
    hide Entering, Next, Verdict, IsStack;
    if es != [] {
      assert Quiet(es[|es| - 1]);
      EnteringRun(d, stack, es[..|es| - 1]);
      EnteringStep(Run(d, es[..|es| - 1]), stack, Down(2, es[..|es| - 1]), es[|es| - 1]);
    }
  }

  // ---------- A whole entry ----------

  /** A key, and what happens until the next one: any messages but keys, and task steps among them. */
  datatype Stroke = Stroke(key: u16, rest: seq<Event>)

  function Events(strokes: seq<Stroke>): seq<Event> {
    if strokes == [] then []
    else Events(strokes[..|strokes| - 1]) + ([Key(strokes[|strokes| - 1].key)] + strokes[|strokes| - 1].rest)
  }

  function Pushes(stack: seq<nat>, strokes: seq<Stroke>): seq<nat> {
    if strokes == [] then stack
    else Push(Pushes(stack, strokes[..|strokes| - 1]), strokes[|strokes| - 1].key)
  }

  /** A digit or backspace that a task step consumes before the next key arrives. */
  predicate Consumed(s: Stroke) {
    s.key <= BACKSPACE && AllQuiet(s.rest) && 1 <= Loops(s.rest)
  }

  lemma TakingBegins(d: State, stack: seq<nat>, k: u16)
    requires Shows(d, stack)
    ensures Next(d, Key(k)).1 == [] && Taking(Next(d, Key(k)).0, stack, k % 256, 1)
  {
  }

  lemma OneStroke(d: State, stack: seq<nat>, s: Stroke)
    requires Shows(d, stack) && Consumed(s)
    ensures var es := [Key(s.key)] + s.rest;
            Shows(Run(d, es), Push(stack, s.key)) && Posts(d, es) == []
  {
    hide Posts, Run, Next, Loops, Shows;
    ShownIsOk(d, stack);
    TakingBegins(d, stack, s.key);
    RunOne(d, Key(s.key));
    RunConcat(d, [Key(s.key)], s.rest);
    TakingRun(Next(d, Key(s.key)).0, stack, s.key, s.rest);
  }

  lemma ShownIsOk(d: State, stack: seq<nat>)
    requires Shows(d, stack)
    ensures CursorOk(d) && IsStack(stack)
  {
  }

  /** Each key consumed before the next arrives, the buffer and the cursor are a stack of at most three
      digits, whatever else is delivered in between, and nothing is posted. */
  lemma {:induction false} TypingIsPushing(d: State, stack: seq<nat>, strokes: seq<Stroke>)
    requires Shows(d, stack) && forall s <- strokes :: Consumed(s)
    ensures Shows(Run(d, Events(strokes)), Pushes(stack, strokes)) && Posts(d, Events(strokes)) == []
    decreases |strokes|
  {
    if strokes != [] {
      var most, s := strokes[..|strokes| - 1], strokes[|strokes| - 1];
      TypingIsPushing(d, stack, most);
      RunConcat(d, Events(most), [Key(s.key)] + s.rest);
      OneStroke(Run(d, Events(most)), Pushes(stack, most), s);
    }
  }

  lemma OpeningBegins(d: State, k: u16)
    requires CursorOk(d) && Needed(d.mode) > 0 && k < 10
    ensures Next(d, Key(k)).1 == [] && Opening(Next(d, Key(k)).0, k, Needed(d.mode))
  {
  }

  lemma FirstStroke(d: State, first: Stroke)
    requires CursorOk(d) && Needed(d.mode) > 0 && first.key < 10
    requires AllQuiet(first.rest) && Needed(d.mode) <= Loops(first.rest)
    ensures var es := [Key(first.key)] + first.rest;
            Shows(Run(d, es), [first.key]) && Posts(d, es) == []
  {
    hide Posts, Run, Next, Loops, Needed, CursorOk, Shows;
    OpeningBegins(d, first.key);
    RunOne(d, Key(first.key));
    RunConcat(d, [Key(first.key)], first.rest);
    OpeningRun(Next(d, Key(first.key)).0, first.key, Needed(d.mode), first.rest);
  }

  lemma EnteringBegins(d: State, stack: seq<nat>)
    requires Shows(d, stack)
    ensures Next(d, Key(ENTER)).1 == [] && Entering(Next(d, Key(ENTER)).0, stack, 2)
  {
  }

  lemma LastStroke(d: State, stack: seq<nat>, rest: seq<Event>)
    requires Shows(d, stack) && AllQuiet(rest) && 2 <= Loops(rest)
    ensures Posts(d, [Key(ENTER)] + rest) == Verdict(stack)
  {
    hide Posts, Run, Next, Loops, Shows, Verdict;
    ShownIsOk(d, stack);
    EnteringBegins(d, stack);
    RunOne(d, Key(ENTER));
    RunConcat(d, [Key(ENTER)], rest);
    EnteringRun(Next(d, Key(ENTER)).0, stack, rest);
  }

  /** For every key sequence, begun with a digit while no entry is open, each key consumed before the next
      arrives, with any other messages at any point: the whole entry posts the stack of digits padded with
      zeros, once, if that is a valid speed, and nothing otherwise. */
  lemma EntryIsTheStack(d: State, first: Stroke, strokes: seq<Stroke>, after: seq<Event>)
    requires CursorOk(d) && Needed(d.mode) > 0 && first.key < 10
    requires AllQuiet(first.rest) && Needed(d.mode) <= Loops(first.rest)
    requires forall s <- strokes :: Consumed(s)
    requires AllQuiet(after) && 2 <= Loops(after)
    ensures var stack := Pushes([first.key], strokes);
            && IsStack(stack)
            && Posts(d, [Key(first.key)] + first.rest + Events(strokes) + ([Key(ENTER)] + after)) == Verdict(stack)
  {
    hide Posts, Run, Next, Events, Loops, Consumed;
    var a, b, c := [Key(first.key)] + first.rest, Events(strokes), [Key(ENTER)] + after;
    var editing := Run(d, a);
    FirstStroke(d, first);
    TypingIsPushing(editing, [first.key], strokes);
    LastStroke(Run(editing, b), Pushes([first.key], strokes), after);
    RunConcat(d, a, b);
    RunConcat(d, a + b, c);
  }

  /** Under any interleaving at all the cursor stays on its columns while editing, and whatever is
      posted is a stop or a speed the motor can run at. */
  lemma AnythingPostedIsAdmissible(now: nat, es: seq<Event>, e: Event)
    ensures CursorOk(Initial(now)) && CursorOk(Run(Initial(now), es))
    ensures forall n <- Next(Run(Initial(now), es), e).1 ::
              n.id == MSG_ID_NEW_RPS_ENTERED && n.context.Value? && Control.Admissible(n.context.w)
    ensures |Next(Run(Initial(now), es), e).1| <= 1
  {
  }
}
