/** The ring arithmetic of the log, for any number of slots `n`.

    A window is named by two slot numbers: the slot of the oldest entry and the
    slot that will be written next. One slot always stays free. */
module RingLog {

  datatype Window = Window(oldest: nat, free: nat)

  ghost predicate InRange(n: nat, w: Window) {
    w.oldest < n && w.free < n
  }

  /** Slots `oldest`, `oldest + 1`, ... up to but excluding `free`, wrapping at the end. */
  function Contents<T>(slots: seq<T>, w: Window): seq<T>
    requires InRange(|slots|, w)
  {
    if w.oldest <= w.free then slots[w.oldest..w.free]
    else slots[w.oldest..] + slots[..w.free]
  }

  /** The window after one append: the three index updates of the write step. */
  function Advance(n: nat, w: Window): Window
    requires InRange(n, w)
  {
    var free := if w.free + 1 >= n then 0 else w.free + 1;
    var oldest := if free == w.oldest then w.oldest + 1 else w.oldest;
    Window(if oldest >= n then 0 else oldest, free)
  }

  function Newest<T>(s: seq<T>, k: nat): (r: seq<T>)
    ensures |r| <= k
  {
    if |s| <= k then s else s[|s| - k..]
  }

  lemma NewestAgain<T>(s: seq<T>, t: seq<T>, k: nat)
    ensures Newest(Newest(s, k) + t, k) == Newest(s + t, k)
  {
  }

  /** Whatever lands in the free slot, the entries in the window are untouched. */
  lemma FreeSlotIsOutside<T>(slots: seq<T>, w: Window, v: T)
    requires InRange(|slots|, w)
    ensures Contents(slots[w.free := v], w) == Contents(slots, w)
  {
  }

  /** How many entries a window holds. */
  function Count(n: nat, w: Window): nat
    requires InRange(n, w)
  {
    if w.oldest <= w.free then w.free - w.oldest else n - w.oldest + w.free
  }

  /** The slot `i` places after the oldest one. */
  function SlotAt(n: nat, w: Window, i: nat): nat
    requires InRange(n, w) && i < n
  {
    if w.oldest + i < n then w.oldest + i else w.oldest + i - n
  }

  lemma ContentsAt<T>(slots: seq<T>, w: Window)
    requires InRange(|slots|, w)
    ensures |Contents(slots, w)| == Count(|slots|, w)
    ensures forall i :: 0 <= i < Count(|slots|, w) ==> Contents(slots, w)[i] == slots[SlotAt(|slots|, w, i)]
  {
  }

  /** Appending makes the window one longer, or moves it on by one when it was full. */
  lemma AdvanceCount(n: nat, w: Window)
    requires 2 <= n && InRange(n, w)
    ensures var w' := Advance(n, w);
            && InRange(n, w')
            && w'.oldest != w'.free
            && Count(n, w') == (if Count(n, w) < n - 1 then Count(n, w) + 1 else n - 1)
            && w'.oldest == (if Count(n, w) < n - 1 then w.oldest else SlotAt(n, w, 1))
            && SlotAt(n, w', Count(n, w') - 1) == w.free
  {
  }

  /** After an append, place `i` shows what place `i` (or `i + 1`, once full) showed before. */
  lemma AppendAt<T>(slots: seq<T>, w: Window, v: T, i: nat)
    requires 2 <= |slots| && InRange(|slots|, w)
    requires InRange(|slots|, Advance(|slots|, w)) && i < Count(|slots|, Advance(|slots|, w))
    ensures var slot := SlotAt(|slots|, Advance(|slots|, w), i);
            slots[w.free := v][slot] ==
              if i == Count(|slots|, Advance(|slots|, w)) - 1 then v
              else slots[SlotAt(|slots|, w, if Count(|slots|, w) < |slots| - 1 then i else i + 1)]
  {
  }

  lemma NewestAt<T>(s: seq<T>, v: T, k: nat, i: nat)
    requires |s| <= k && i < |Newest(s + [v], k)|
    ensures |Newest(s + [v], k)| == if |s| < k then |s| + 1 else k
    ensures Newest(s + [v], k)[i] == if i == |Newest(s + [v], k)| - 1 then v else s[if |s| < k then i else i + 1]
  {
  }

  lemma AppendedEntry<T>(slots: seq<T>, w: Window, v: T, i: nat)
    requires 2 <= |slots| && InRange(|slots|, w)
    requires InRange(|slots|, Advance(|slots|, w)) && i < Count(|slots|, Advance(|slots|, w))
    ensures var left, right := Contents(slots[w.free := v], Advance(|slots|, w)), Newest(Contents(slots, w) + [v], |slots| - 1);
            |left| == |right| == Count(|slots|, Advance(|slots|, w)) && left[i] == right[i]
  {
    AdvanceCount(|slots|, w);
    ContentsAt(slots, w);
    ContentsAt(slots[w.free := v], Advance(|slots|, w));
    AppendAt(slots, w, v, i);
    NewestAt(Contents(slots, w), v, |slots| - 1, i);
  }

  /** One append on the ring is "add at the end, keep the newest n - 1". */
  lemma AppendRefines<T>(slots: seq<T>, w: Window, v: T)
    requires 2 <= |slots| && InRange(|slots|, w)
    ensures var w' := Advance(|slots|, w);
            && InRange(|slots|, w')
            && w'.oldest != w'.free
            && Contents(slots[w.free := v], w') == Newest(Contents(slots, w) + [v], |slots| - 1)
  {
    AdvanceCount(|slots|, w);
    var left, right := Contents(slots[w.free := v], Advance(|slots|, w)), Newest(Contents(slots, w) + [v], |slots| - 1);
    AppendedEntry(slots, w, v, 0);
    forall i | 0 <= i < |left|
      ensures left[i] == right[i]
    {
      AppendedEntry(slots, w, v, i);
    }
  }

  datatype Ring<T> = Ring(slots: seq<T>, window: Window)

  ghost predicate IsRing<T>(n: nat, r: Ring<T>) {
    |r.slots| == n && 2 <= n && InRange(n, r.window)
  }

  function Append<T>(n: nat, r: Ring<T>, v: T): Ring<T>
    requires IsRing(n, r)
  {
    Ring(r.slots[r.window.free := v], Advance(n, r.window))
  }

  /** Appending a whole list of values, one after the other. */
  function AppendAll<T>(n: nat, r: Ring<T>, vs: seq<T>): (r': Ring<T>)
    requires IsRing(n, r)
    ensures IsRing(n, r')
    decreases |vs|
  {
    if vs == [] then r else Append(n, AppendAll(n, r, vs[..|vs| - 1]), vs[|vs| - 1])
  }

  /** A ring that holds the newest of `history` still does so after one more append. */
  lemma AppendExtends<T>(slots: seq<T>, w: Window, history: seq<T>, v: T)
    requires 2 <= |slots| && InRange(|slots|, w)
    requires Contents(slots, w) == Newest(history, |slots| - 1)
    ensures InRange(|slots|, Advance(|slots|, w))
    ensures Contents(slots[w.free := v], Advance(|slots|, w)) == Newest(history + [v], |slots| - 1)
  {
    AppendRefines(slots, w, v);
    NewestAgain(history, [v], |slots| - 1);
  }

  /** After any number of appends the window reads back the newest n - 1 values, oldest first. */
  lemma {:induction false} AppendAllRefines<T>(n: nat, r: Ring<T>, vs: seq<T>)
    requires IsRing(n, r)
    ensures var r' := AppendAll(n, r, vs);
            Contents(r'.slots, r'.window) == Newest(Contents(r.slots, r.window) + vs, n - 1)
    decreases |vs|
  {
    if vs == [] {
      ContentsAt(r.slots, r.window);
      assert Contents(r.slots, r.window) + vs == Contents(r.slots, r.window);
    } else {
      var most, last := vs[..|vs| - 1], vs[|vs| - 1];
      AppendAllRefines(n, r, most);
      var before := Contents(r.slots, r.window);
      assert vs == most + [last];
      assert before + most + [last] == before + vs;
      AppendExtends(AppendAll(n, r, most).slots, AppendAll(n, r, most).window, before + most, last);
    }
  }
}
