/** The keypad task: scanning, debounce, and the key messages it posts. */
module Keypad {
  import opened Bytes
  import opened Messages
  import opened OsTimer

  type Port = bv8

  const ROWS: Port := 0x78
  const DEBOUNCE := 20
  const BLANK: u16 := 255

  /** The key map, entry by entry: the port reading of key `k`. */
  function PortOf(k: nat): Port
    requires k < 12
  {
    if k == 0 then 0x0D
    else if k == 1 then 0x43 else if k == 2 then 0x45 else if k == 3 then 0x46
    else if k == 4 then 0x23 else if k == 5 then 0x25 else if k == 6 then 0x26
    else if k == 7 then 0x13 else if k == 8 then 0x15 else if k == 9 then 0x16
    else if k == 10 then 0x0B else 0x0E
  }

  /** The key that a port reading stands for, 12 for none. */
  function KeyOf(port: Port): (k: u16)
    ensures k <= 12
    ensures k < 12 ==> PortOf(k) == port && port & ROWS != 0
  {
    if port == 0x0D then 0
    else if port == 0x43 then 1 else if port == 0x45 then 2 else if port == 0x46 then 3
    else if port == 0x23 then 4 else if port == 0x25 then 5 else if port == 0x26 then 6
    else if port == 0x13 then 7 else if port == 0x15 then 8 else if port == 0x16 then 9
    else if port == 0x0B then 10 else if port == 0x0E then 11 else 12
  }

  /** No port reading occurs twice in the map. */
  lemma MapIsInjective(k: nat)
    requires k < 12
    ensures KeyOf(PortOf(k)) == k
  {
  }

  predicate Mapped(port: Port) { KeyOf(port) < 12 }

  datatype Mode = KeyIdle | KeyPressDetected | KeyPressed | KeyReleaseDetected

  datatype State = State(mode: Mode, last: Port, timer: Timer)

  function KeyNote(k: u16): Note { Note(MSG_ID_KEY_PRESSED, Value(k)) }

  function SegNote(k: u16): Note { Note(MSG_ID_UPDATE_7SEG, Value(k)) }

  /** What one task step posts and which state it reaches. */
  function TaskStep(s: State, reading: Port, now: nat): (State, seq<Note>) {
    match s.mode
    case KeyIdle =>
      if reading & ROWS != 0 then
        (State(KeyPressDetected, reading, Apply(s.timer, Set(DEBOUNCE), now)), [])
      else (s, [])
    case KeyPressDetected =>
      if Expired(s.timer, now) && reading & s.last & ROWS != 0 then
        if Mapped(reading) then
          var k := KeyOf(reading);
          (s.(mode := KeyPressed), [SegNote(k), KeyNote(k)])
        else (s, [])
      else if reading & ROWS == 0 then (s.(mode := KeyIdle), [])
      else (s, [])
    case KeyPressed =>
      if reading == s.last then (s, [])
      else (s.(mode := KeyIdle),
            (if Mapped(reading) then [KeyNote(KeyOf(reading))] else []) + [SegNote(BLANK)])
    case KeyReleaseDetected => (s.(mode := KeyIdle), [])
  }

  class KeypadTask {
    var keyState: Mode
    var lastPressed: Port
    const keyTimer: OSTimer

    function View(): State
      reads this, keyTimer
    {
      State(keyState, lastPressed, keyTimer.View())
    }

    constructor (now: nat)
      ensures View() == State(KeyIdle, 0, Fresh(10, now))
      ensures fresh(keyTimer)
    {
      keyState, lastPressed := KeyIdle, 0;
      keyTimer := new OSTimer(10, now);
    }

    /** One poll; `registeredKey` is the port reading the bus transfer left behind. */
    method TaskLoop(registeredKey: Port, now: nat) returns (posts: seq<Note>)
      modifies this, keyTimer
      ensures (View(), posts) == TaskStep(old(View()), registeredKey, now)
    {
      hide KeyOf, Expired;
      posts := [];
      match keyState {
        case KeyIdle =>
          if registeredKey & ROWS != 0 {
            keyTimer.SetTimeout(DEBOUNCE, now);
            lastPressed := registeredKey;
            keyState := KeyPressDetected;
          }
        case KeyPressDetected =>
          var expired := keyTimer.IsExpired(now);
          if expired && registeredKey & lastPressed & ROWS != 0 {
            var keys := Matching(registeredKey);
            if |keys| == 1 {
              posts := [SegNote(keys[0]), KeyNote(keys[0])];
              keyState := KeyPressed;
            }
          } else if registeredKey & ROWS == 0 {
            keyState := KeyIdle;
          }
        case KeyPressed =>
          if registeredKey != lastPressed {
            var keys := Matching(registeredKey);
            if |keys| == 1 {
              posts := [KeyNote(keys[0])];
            }
            posts := posts + [SegNote(BLANK)];
            keyState := KeyIdle;
          }
        case KeyReleaseDetected => keyState := KeyIdle;
      }
    }

    /** The loop over the key map. */
    method Matching(port: Port) returns (keys: seq<u16>)
      ensures keys == if Mapped(port) then [KeyOf(port)] else []
    {
      keys := [];
      for k := 0 to 12
        invariant keys == if KeyOf(port) < k then [KeyOf(port)] else []
      {
        MapIsInjective(k);
        if PortOf(k) == port {
          keys := keys + [k];
        }
      }
    }
  }

  // ---------- Laws ----------

  datatype Poll = Poll(reading: Port, now: nat)

  function Run(s: State, polls: seq<Poll>): State {
    if polls == [] then s
    else Step(Run(s, polls[..|polls| - 1]), polls[|polls| - 1]).0
  }

  function Posts(s: State, polls: seq<Poll>): seq<Note> {
    if polls == [] then []
    else Posts(s, polls[..|polls| - 1]) + Step(Run(s, polls[..|polls| - 1]), polls[|polls| - 1]).1
  }

  /** What the seven-segment display is told, in order. */
  function Segments(notes: seq<Note>): seq<u16> {
    if notes == [] then []
    else
      var n := notes[|notes| - 1];
      Segments(notes[..|notes| - 1])
      + if n.id == MSG_ID_UPDATE_7SEG && n.context.Value? then [n.context.w] else []
  }

  function Keys(notes: seq<Note>): seq<u16> {
    if notes == [] then []
    else
      var n := notes[|notes| - 1];
      Keys(notes[..|notes| - 1]) + if n.id == MSG_ID_KEY_PRESSED && n.context.Value? then [n.context.w] else []
  }

  lemma {:induction false} SegmentsConcat(a: seq<Note>, b: seq<Note>)
    ensures Segments(a + b) == Segments(a) + Segments(b)
    ensures Keys(a + b) == Keys(a) + Keys(b)
    decreases |b|
  {
    if b == [] {
      assert a + b == a;
    } else {
      assert (a + b)[..|a + b| - 1] == a + b[..|b| - 1];
      SegmentsConcat(a, b[..|b| - 1]);
    }
  }

  /** Key, blank, key, blank, ... */
  ghost predicate Alternates(segments: seq<u16>) {
    forall i :: 0 <= i < |segments| ==> if i % 2 == 0 then segments[i] <= 11 else segments[i] == BLANK
  }

  /** A second key message without a release in between: the reading jumps from one mapped value to
      another while a key counts as pressed. */
  function RollOver(s: State, reading: Port): nat {
    if s.mode.KeyPressed? && reading != s.last && Mapped(reading) then 1 else 0
  }

  function RollOvers(s: State, polls: seq<Poll>): nat {
    if polls == [] then 0
    else RollOvers(s, polls[..|polls| - 1]) + RollOver(Run(s, polls[..|polls| - 1]), polls[|polls| - 1].reading)
  }

  lemma OneOf(a: Note)
    ensures Segments([a]) == if a.id == MSG_ID_UPDATE_7SEG && a.context.Value? then [a.context.w] else []
    ensures Keys([a]) == if a.id == MSG_ID_KEY_PRESSED && a.context.Value? then [a.context.w] else []
  {
    assert [a][..0] == [];
  }

  /** The message sequences a step can post. */
  lemma PostShapes(k: u16)
    ensures Segments([SegNote(k), KeyNote(k)]) == [k] && |Keys([SegNote(k), KeyNote(k)])| == 1
    ensures Segments([KeyNote(k), SegNote(BLANK)]) == [BLANK] && |Keys([KeyNote(k), SegNote(BLANK)])| == 1
    ensures Segments([SegNote(BLANK)]) == [BLANK] && |Keys([SegNote(BLANK)])| == 0
  {
    hide Segments, Keys;
    OneOf(SegNote(k));
    OneOf(KeyNote(k));
    OneOf(SegNote(BLANK));
    SegmentsConcat([SegNote(k)], [KeyNote(k)]);
    SegmentsConcat([KeyNote(k)], [SegNote(BLANK)]);
    assert [SegNote(k)] + [KeyNote(k)] == [SegNote(k), KeyNote(k)];
    assert [KeyNote(k)] + [SegNote(BLANK)] == [KeyNote(k), SegNote(BLANK)];
  }

  function Step(s: State, p: Poll): (State, seq<Note>) { TaskStep(s, p.reading, p.now) }

  predicate Pressed(s: State, t: State) { !s.mode.KeyPressed? && t.mode.KeyPressed? }

  predicate Released(s: State, t: State) { s.mode.KeyPressed? && !t.mode.KeyPressed? }

  /** The messages of one step, sorted by receiver. */
  lemma StepSegments(s: State, p: Poll)
    ensures var (t, posts) := Step(s, p);
            && Segments(posts) == (if Pressed(s, t) then [KeyOf(p.reading)] else if Released(s, t) then [BLANK] else [])
            && (Pressed(s, t) ==> KeyOf(p.reading) <= 11)
            && |Keys(posts)| == (if Pressed(s, t) then 1 else 0) + RollOver(s, p.reading)
            && (RollOver(s, p.reading) == 1 ==> Released(s, t))
  {
    hide Segments, Keys, KeyOf, Expired;
    PostShapes(KeyOf(p.reading));
    NoPosts();
    var k, posts := KeyOf(p.reading), Step(s, p).1;
    if s.mode.KeyPressed? && p.reading != s.last {
      assert posts == if Mapped(p.reading) then [KeyNote(k), SegNote(BLANK)] else [SegNote(BLANK)];
    } else {
      assert posts == [SegNote(k), KeyNote(k)] || posts == [];
    }
  }

  lemma NoPosts()
    ensures Segments([]) == [] && Keys([]) == []
  {
  }

  lemma AlternatesExtends(segments: seq<u16>, x: u16)
    requires Alternates(segments) && (if |segments| % 2 == 0 then x <= 11 else x == BLANK)
    ensures Alternates(segments + [x])
  {
  }

  ghost predicate InStep(mode: Mode, segments: seq<u16>, keys: nat, rollOvers: nat) {
    && Alternates(segments)
    && (mode.KeyPressed? <==> |segments| % 2 == 1)
    && 2 * keys == |segments| + |segments| % 2 + 2 * rollOvers
  }

  lemma InStepExtends(s: State, p: Poll, segments: seq<u16>, keys: seq<u16>, rollOvers: nat)
    requires InStep(s.mode, segments, |keys|, rollOvers)
    ensures var (t, posts) := Step(s, p);
            InStep(t.mode, segments + Segments(posts), |keys + Keys(posts)|, rollOvers + RollOver(s, p.reading))
  {
    hide Segments, Keys, KeyOf, Alternates, Step;
    StepSegments(s, p);
    var (t, posts) := Step(s, p);
    if Pressed(s, t) {
      AlternatesExtends(segments, KeyOf(p.reading));
    } else if Released(s, t) {
      AlternatesExtends(segments, BLANK);
    } else {
      assert segments + Segments(posts) == segments;
    }
  }

  /** Over every run of readings and clock values, from the idle state, the display messages
      alternate between a key and blank, starting with a key; the state is "pressed" exactly when
      the last one was a key; and there is one key message per displayed key plus one per roll-over. */
  lemma {:induction false} DisplayAlternates(s: State, polls: seq<Poll>)
    requires s.mode.KeyIdle?
    ensures InStep(Run(s, polls).mode, Segments(Posts(s, polls)), |Keys(Posts(s, polls))|, RollOvers(s, polls))
    decreases |polls|
  {
    if polls != [] {
      hide InStep, Segments, Keys;
      var most, p := polls[..|polls| - 1], polls[|polls| - 1];
      DisplayAlternates(s, most);
      InStepExtends(Run(s, most), p, Segments(Posts(s, most)), Keys(Posts(s, most)), RollOvers(s, most));
      SegmentsConcat(Posts(s, most), Step(Run(s, most), p).1);
    }
  }

  // ---------- Which key is accepted ----------

  /** The key that was detected first, whenever a press is accepted. */
  function FirstKey(s: State, p: Poll): seq<u16> {
    if Pressed(s, Step(s, p).0) then [KeyOf(s.last)] else []
  }

  function FirstKeys(s: State, polls: seq<Poll>): seq<u16> {
    if polls == [] then []
    else FirstKeys(s, polls[..|polls| - 1]) + FirstKey(Run(s, polls[..|polls| - 1]), polls[|polls| - 1])
  }

  /** A press is accepted at a poll that reads something else than was detected first. */
  function Swap(s: State, p: Poll): nat {
    if Pressed(s, Step(s, p).0) && p.reading != s.last then 1 else 0
  }

  function Swaps(s: State, polls: seq<Poll>): nat {
    if polls == [] then 0
    else Swaps(s, polls[..|polls| - 1]) + Swap(Run(s, polls[..|polls| - 1]), polls[|polls| - 1])
  }

  lemma SameKey(a: Port, b: Port)
    requires Mapped(a)
    ensures KeyOf(a) == KeyOf(b) <==> a == b
  {
  }

  /** The key messages of one step against the first detected keys. */
  lemma StepKeys(s: State, p: Poll)
    ensures var ks, fs := Keys(Step(s, p).1), FirstKey(s, p);
            && |ks| == |fs| + RollOver(s, p.reading)
            && (ks == fs <==> Swap(s, p) == 0 && RollOver(s, p.reading) == 0)
  {
    hide Keys, KeyOf, Expired, Mapped;
    StepSegments(s, p);
    NoPosts();
    if Pressed(s, Step(s, p).0) {
      KeysOfPress(KeyOf(p.reading));
      Accepted(s, p);
      SameKey(p.reading, s.last);
    }
  }

  lemma KeysOfPress(k: u16)
    ensures Keys([SegNote(k), KeyNote(k)]) == [k]
  {
    OneOf(SegNote(k));
    OneOf(KeyNote(k));
    SegmentsConcat([SegNote(k)], [KeyNote(k)]);
    assert [SegNote(k)] + [KeyNote(k)] == [SegNote(k), KeyNote(k)];
  }

  lemma Accepted(s: State, p: Poll)
    requires Pressed(s, Step(s, p).0)
    ensures Mapped(p.reading) && Step(s, p).1 == [SegNote(KeyOf(p.reading)), KeyNote(KeyOf(p.reading))]
  {
    hide KeyOf, Expired;
  }

  lemma ConcatEqual<T>(a: seq<T>, b: seq<T>, x: seq<T>, y: seq<T>)
    requires |b| <= |a| && |y| <= |x|
    ensures a + x == b + y <==> a == b && x == y
  {
    if a + x == b + y {
      assert |a| == |b|;
      assert (a + x)[..|a|] == a && (b + y)[..|b|] == b && (a + x)[|a|..] == x && (b + y)[|b|..] == y;
    }
  }

  /** Exactly then: over every run the keys posted are those detected first, once per accepted press, if and
      only if no press is accepted at another reading than its first one and no roll-over occurs. */
  lemma {:induction false} FirstKeyIff(s: State, polls: seq<Poll>)
    ensures |Keys(Posts(s, polls))| == |FirstKeys(s, polls)| + RollOvers(s, polls)
    ensures Keys(Posts(s, polls)) == FirstKeys(s, polls) <==> Swaps(s, polls) == 0 && RollOvers(s, polls) == 0
    decreases |polls|
  {
    hide Keys, FirstKey, Swap, RollOver, Step;
    if polls == [] {
      NoPosts();
    } else {
      var most, p := polls[..|polls| - 1], polls[|polls| - 1];
      var t := Run(s, most);
      FirstKeyIff(s, most);
      StepKeys(t, p);
      SegmentsConcat(Posts(s, most), Step(t, p).1);
      ConcatEqual(Keys(Posts(s, most)), FirstKeys(s, most), Keys(Step(t, p).1), FirstKey(t, p));
    }
  }

  lemma OneMorePoll(s: State, polls: seq<Poll>, p: Poll)
    ensures var t := Run(s, polls);
            && Run(s, polls + [p]) == Step(t, p).0 && Posts(s, polls + [p]) == Posts(s, polls) + Step(t, p).1
            && FirstKeys(s, polls + [p]) == FirstKeys(s, polls) + FirstKey(t, p)
  {
    assert (polls + [p])[..|polls|] == polls;
  }

  lemma SampleKeys()
    ensures KeyOf(0x43) == 1 && KeyOf(0x45) == 2
    ensures (0x43 as Port) & ROWS != 0 && (0x45 as Port) & 0x43 & ROWS != 0 && (0x43 as Port) & 0x43 & ROWS != 0
  {
    assert (0x43 as Port) & 0x78 != 0 && (0x45 as Port) & 0x43 & 0x78 != 0 && (0x43 as Port) & 0x43 & 0x78 != 0;
  }

  /** Key 1 detected at time 0, and a poll at time 30. */
  lemma Detected(s: State, v: Port)
    requires s.mode.KeyIdle? && (v == 0x43 || v == 0x45)
    ensures var polls := [Poll(0x43, 0)] + [Poll(v, 30)];
            && Run(s, polls).mode.KeyPressed? && Run(s, polls).last == 0x43
            && Posts(s, polls) == [SegNote(KeyOf(v)), KeyNote(KeyOf(v))] && FirstKeys(s, polls) == [1]
  {
    hide KeyOf, Run, Posts, FirstKeys;
    SampleKeys();
    NothingPolled(s);
    OneMorePoll(s, [], Poll(0x43, 0));
    OneMorePoll(s, [Poll(0x43, 0)], Poll(v, 30));
    assert [] + [Poll(0x43, 0)] == [Poll(0x43, 0)];
  }

  lemma NothingPolled(s: State)
    ensures Run(s, []) == s && Posts(s, []) == [] && FirstKeys(s, []) == []
  {
  }

  /** Key 1 is detected, but key 2 is what the poll reads when the debounce time is over: key 2 is accepted. */
  lemma SecondKeyAccepted(s: State)
    requires s.mode.KeyIdle?
    ensures var polls := [Poll(0x43, 0)] + [Poll(0x45, 30)];
            FirstKeys(s, polls) == [1] && Posts(s, polls) == [SegNote(2), KeyNote(2)]
  {
    hide Run, Posts, FirstKeys, KeyOf;
    SampleKeys();
    Detected(s, 0x45);
  }

  /** Key 1 is accepted and held, then the reading rolls over to key 2: both are posted. */
  lemma BothKeysPosted(s: State)
    requires s.mode.KeyIdle?
    ensures var polls := [Poll(0x43, 0)] + [Poll(0x43, 30)] + [Poll(0x45, 60)];
            FirstKeys(s, polls) == [1] && Posts(s, polls) == [SegNote(1), KeyNote(1), KeyNote(2), SegNote(BLANK)]
  {
    hide Run, Posts, FirstKeys, KeyOf;
    SampleKeys();
    Detected(s, 0x43);
    OneMorePoll(s, [Poll(0x43, 0)] + [Poll(0x43, 30)], Poll(0x45, 60));
  }

  // ---------- One press ----------

  /** A constant reading at the times `at`. */
  function Held(v: Port, at: seq<nat>): (polls: seq<Poll>)
    ensures |polls| == |at|
  {
    seq(|at|, i requires 0 <= i < |at| => Poll(v, at[i]))
  }

  /** Some poll after the first found the debounce time over. */
  predicate Debounced(s: State, at: seq<nat>)
    requires at != []
  {
    exists i :: 0 < i < |at| && Expired(Apply(s.timer, Set(DEBOUNCE), at[0]), at[i])
  }

  lemma {:induction false} HeldKey(s: State, v: Port, at: seq<nat>)
    requires s.mode.KeyIdle? && Mapped(v) && at != []
    ensures var t := Run(s, Held(v, at));
            var k := KeyOf(v);
            && t.last == v && t.timer == Apply(s.timer, Set(DEBOUNCE), at[0])
            && (if Debounced(s, at) then t.mode.KeyPressed? && Posts(s, Held(v, at)) == [SegNote(k), KeyNote(k)]
                else t.mode.KeyPressDetected? && Posts(s, Held(v, at)) == [])
    decreases |at|
  {
    var most := at[..|at| - 1];
    assert Held(v, at)[..|at| - 1] == Held(v, most);
    if |at| == 1 {
      assert Held(v, most) == [];
    } else {
      HeldKey(s, v, most);
      HeldStep(Run(s, Held(v, most)), v, at[|at| - 1]);
      DebouncedSnoc(s, at);
    }
  }

  lemma HeldStep(t: State, v: Port, now: nat)
    requires Mapped(v) && t.last == v && v & ROWS != 0
    requires t.mode.KeyPressed? || t.mode.KeyPressDetected?
    ensures var (t', posts) := TaskStep(t, v, now);
            var k := KeyOf(v);
            if t.mode.KeyPressDetected? && Expired(t.timer, now)
            then t' == t.(mode := KeyPressed) && posts == [SegNote(k), KeyNote(k)]
            else t' == t && posts == []
  {
    assert v & v == v;
  }

  lemma DebouncedSnoc(s: State, at: seq<nat>)
    requires 1 < |at|
    ensures Debounced(s, at) <==>
              Debounced(s, at[..|at| - 1]) || Expired(Apply(s.timer, Set(DEBOUNCE), at[0]), at[|at| - 1])
  {
    var most := at[..|at| - 1];
    if Debounced(s, most) {
      var i :| 0 < i < |most| && Expired(Apply(s.timer, Set(DEBOUNCE), most[0]), most[i]);
      assert at[i] == most[i];
    }
    if Debounced(s, at) {
      var i :| 0 < i < |at| && Expired(Apply(s.timer, Set(DEBOUNCE), at[0]), at[i]);
      assert i < |most| ==> most[i] == at[i];
    }
  }

  /** A press that shows one constant mapped reading until it is released posts its key exactly once
      if it outlasts the debounce time at some poll, and nothing otherwise. */
  lemma OnePressOneKey(s: State, v: Port, at: seq<nat>, release: Poll)
    requires s.mode.KeyIdle? && Mapped(v) && at != [] && release.reading & ROWS == 0
    ensures var polls := Held(v, at) + [release];
            var k := KeyOf(v);
            && Run(s, polls).mode.KeyIdle?
            && Posts(s, polls) == if Debounced(s, at) then [SegNote(k), KeyNote(k), SegNote(BLANK)] else []
  {
    hide KeyOf, Expired, Debounced, TaskStep;
    HeldKey(s, v, at);
    assert (Held(v, at) + [release])[..|at|] == Held(v, at);
    assert v & 0 == 0;
    ReleaseDetected(Run(s, Held(v, at)), release);
  }

  lemma ReleaseDetected(t: State, release: Poll)
    requires t.last & ROWS != 0 && release.reading & ROWS == 0 && !Mapped(release.reading)
    requires t.mode.KeyPressed? || t.mode.KeyPressDetected?
    ensures var (t', posts) := TaskStep(t, release.reading, release.now);
            t'.mode.KeyIdle? && posts == if t.mode.KeyPressed? then [SegNote(BLANK)] else []
  {
    assert release.reading & t.last & ROWS == (release.reading & ROWS) & t.last;
  }
}
