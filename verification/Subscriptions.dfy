/** The subscriber lists of the message queue, as values: one list per message id, newest first. */
module Subscriptions {

  const MSG_MAX_MSG_IDS := 26

  /** A handler function or an event receiver. Lists are searched by address alone. */
  datatype Subscriber = OfFunction(address: nat) | OfReceiver(address: nat)

  type Table = t: seq<seq<Subscriber>> | |t| == MSG_MAX_MSG_IDS
    ghost witness seq(MSG_MAX_MSG_IDS, _ => [])

  ghost function EmptyTable(): Table { seq(MSG_MAX_MSG_IDS, _ => []) }

  predicate Has(list: seq<Subscriber>, address: nat) {
    exists i :: 0 <= i < |list| && list[i].address == address
  }

  /** The list without its first entry for `address`. */
  function Remove(list: seq<Subscriber>, address: nat): seq<Subscriber> {
    if list == [] then []
    else if list[0].address == address then list[1..]
    else [list[0]] + Remove(list[1..], address)
  }

  datatype Op = Add(id: nat, who: Subscriber) | Drop(id: nat, address: nat)

  /** `Subscribe` refuses a bad id, a null handler, and an address that is already listed. */
  predicate Admits(t: Table, id: nat, who: Subscriber) {
    id < MSG_MAX_MSG_IDS && who.address != 0 && !Has(t[id], who.address)
  }

  function Apply(t: Table, op: Op): Table {
    match op
    case Add(id, who) => if Admits(t, id, who) then t[id := [who] + t[id]] else t
    case Drop(id, address) => if id < MSG_MAX_MSG_IDS then t[id := Remove(t[id], address)] else t
  }

  ghost function Run(h: seq<Op>): Table {
    if h == [] then EmptyTable() else Apply(Run(h[..|h| - 1]), h[|h| - 1])
  }

  // ---------- The reference: what a history of calls means ----------

  /** The last call about this id and address was a subscription. */
  predicate Subscribed(h: seq<Op>, id: nat, address: nat) {
    h != [] &&
    match h[|h| - 1]
    case Add(i, who) => (i == id && who.address == address) || Subscribed(h[..|h| - 1], id, address)
    case Drop(i, a) => !(i == id && a == address) && Subscribed(h[..|h| - 1], id, address)
  }

  /** The call that brought the present subscription about: the first one since it was last absent. */
  function Since(h: seq<Op>, id: nat, address: nat): (i: nat)
    requires Subscribed(h, id, address)
    ensures i < |h| && h[i].Add? && h[i].id == id && h[i].who.address == address
  {
    if Subscribed(h[..|h| - 1], id, address) then Since(h[..|h| - 1], id, address) else |h| - 1
  }

  ghost predicate Members(h: seq<Op>, id: nat, list: seq<Subscriber>) {
    forall a :: a != 0 ==> (Has(list, a) <==> Subscribed(h, id, a))
  }

  /** Entry `x` stands for a current subscription, with the handler given when it was made. */
  ghost predicate Origin(h: seq<Op>, id: nat, x: Subscriber) {
    x.address != 0 && Subscribed(h, id, x.address) && h[Since(h, id, x.address)].who == x
  }

  ghost predicate Younger(h: seq<Op>, id: nat, x: Subscriber, y: Subscriber) {
    && Origin(h, id, x) && Origin(h, id, y)
    && x.address != y.address && Since(h, id, y.address) < Since(h, id, x.address)
  }

  /** The list of `id` holds exactly the current subscriptions, each once, newest first. */
  ghost predicate Represents(h: seq<Op>, id: nat, list: seq<Subscriber>) {
    && Members(h, id, list)
    && (forall i :: 0 <= i < |list| ==> Origin(h, id, list[i]))
    && (forall i, j :: 0 <= i < j < |list| ==> Younger(h, id, list[i], list[j]))
  }

  // ---------- Removal ----------

  ghost predicate Distinct(list: seq<Subscriber>) {
    forall i, j :: 0 <= i < j < |list| ==> list[i].address != list[j].address
  }

  function Position(list: seq<Subscriber>, address: nat): (p: nat)
    ensures p <= |list|
    ensures forall i :: 0 <= i < p ==> list[i].address != address
    ensures p < |list| ==> list[p].address == address
  {
    if list == [] || list[0].address == address then 0 else 1 + Position(list[1..], address)
  }

  /** Where entry `i` of the shortened list stood when entry `p` was taken out. */
  function Shift(i: nat, p: nat): nat { if i < p then i else i + 1 }

  lemma {:induction false} RemoveAt(list: seq<Subscriber>, address: nat)
    ensures var p, r := Position(list, address), Remove(list, address);
            if p == |list| then r == list
            else |r| == |list| - 1 && forall i :: 0 <= i < |r| ==> r[i] == list[Shift(i, p)]
    decreases |list|
  {
    if list != [] && list[0].address != address {
      var rest := list[1..];
      RemoveAt(rest, address);
      assert Position(list, address) == 1 + Position(rest, address);
      assert Remove(list, address) == [list[0]] + Remove(rest, address);
    }
  }

  /** Removal keeps every other subscriber, in order. */
  lemma {:induction false} RemoveKeepsOthers(list: seq<Subscriber>, address: nat)
    requires Distinct(list)
    ensures Remove(list, address) == Without(list, address)
    decreases |list|
  {
    if list != [] {
      RemoveKeepsOthers(list[1..], address);
      if list[0].address == address {
        WithoutAbsent(list[1..], address);
      }
    }
  }

  function Without(list: seq<Subscriber>, address: nat): seq<Subscriber> {
    if list == [] then []
    else (if list[0].address == address then [] else [list[0]]) + Without(list[1..], address)
  }

  lemma {:induction false} WithoutAbsent(list: seq<Subscriber>, address: nat)
    requires forall i :: 0 <= i < |list| ==> list[i].address != address
    ensures Without(list, address) == list
    decreases |list|
  {
    if list != [] {
      WithoutAbsent(list[1..], address);
    }
  }

  // ---------- The lists represent the history ----------

  lemma AddRepresents(h: seq<Op>, id: nat, list: seq<Subscriber>, who: Subscriber)
    requires Represents(h, id, list) && who.address != 0 && !Has(list, who.address)
    ensures Represents(h + [Add(id, who)], id, [who] + list)
  {
    var h', list' := h + [Add(id, who)], [who] + list;
    assert h'[..|h|] == h;
    assert Origin(h', id, who) && Since(h', id, who.address) == |h|;
    forall a | a != 0
      ensures Has(list', a) <==> Subscribed(h', id, a)
    {
      HasCons(list, who, a);
    }
    forall i | 0 <= i < |list|
      ensures Origin(h', id, list[i]) && Since(h', id, list[i].address) == Since(h, id, list[i].address)
      ensures Younger(h', id, who, list[i])
    {
    }
    forall i, j | 0 <= i < j < |list'|
      ensures Younger(h', id, list'[i], list'[j])
    {
      if i > 0 {
        assert Younger(h, id, list[i - 1], list[j - 1]);
      }
    }
  }

  lemma HasCons(list: seq<Subscriber>, who: Subscriber, a: nat)
    ensures Has([who] + list, a) <==> who.address == a || Has(list, a)
  {
    assert ([who] + list)[0] == who;
    if Has(list, a) {
      var i :| 0 <= i < |list| && list[i].address == a;
      assert ([who] + list)[i + 1].address == a;
    }
  }

  /** A call that changes neither the list nor who is subscribed. */
  lemma IdleRepresents(h: seq<Op>, id: nat, list: seq<Subscriber>, op: Op)
    requires Represents(h, id, list)
    requires match op
             case Add(i, who) => i != id || who.address == 0 || Has(list, who.address)
             case Drop(i, a) => i != id || a == 0 || !Has(list, a)
    ensures Represents(h + [op], id, list)
  {
    var h' := h + [op];
    assert h'[..|h|] == h;
    forall a | a != 0
      ensures Subscribed(h', id, a) <==> Subscribed(h, id, a)
      ensures Subscribed(h, id, a) ==> Since(h', id, a) == Since(h, id, a)
    {
    }
    forall x | Origin(h, id, x)
      ensures Origin(h', id, x)
    {
    }
  }

  /** What a removal leaves unchanged in the reference. */
  lemma DropReference(h: seq<Op>, id: nat, address: nat, a: nat)
    requires a != address
    ensures Subscribed(h + [Drop(id, address)], id, a) <==> Subscribed(h, id, a)
    ensures Subscribed(h, id, a) ==> Since(h + [Drop(id, address)], id, a) == Since(h, id, a)
    ensures !Subscribed(h + [Drop(id, address)], id, address)
  {
    assert (h + [Drop(id, address)])[..|h|] == h;
  }

  lemma DropMembers(h: seq<Op>, id: nat, list: seq<Subscriber>, address: nat)
    requires Represents(h, id, list) && Has(list, address)
    ensures Members(h + [Drop(id, address)], id, Remove(list, address))
  {
    var h' := h + [Drop(id, address)];
    forall a | a != 0
      ensures Has(Remove(list, address), a) <==> Subscribed(h', id, a)
    {
      if a == address {
        DropReference(h, id, address, address + 1);
        RemovedIsGone(h, id, list, address);
      } else {
        DropReference(h, id, address, a);
        HasAfterRemove(list, address, a);
      }
    }
  }

  lemma RemovedIsGone(h: seq<Op>, id: nat, list: seq<Subscriber>, address: nat)
    requires Represents(h, id, list) && Has(list, address)
    ensures !Has(Remove(list, address), address)
  {
    var p := Position(list, address);
    RemoveAt(list, address);
    forall i | 0 <= i < |list| && i != p
      ensures list[i].address != address
    {
      assert Younger(h, id, list[if i < p then i else p], list[if i < p then p else i]);
    }
  }

  lemma DropYounger(h: seq<Op>, id: nat, address: nat, x: Subscriber, y: Subscriber)
    requires Younger(h, id, x, y) && x.address != address && y.address != address
    ensures Younger(h + [Drop(id, address)], id, x, y)
  {
    DropReference(h, id, address, x.address);
    DropReference(h, id, address, y.address);
  }

  lemma DropOrigin(h: seq<Op>, id: nat, address: nat, x: Subscriber)
    requires Origin(h, id, x) && x.address != address
    ensures Origin(h + [Drop(id, address)], id, x)
  {
    DropReference(h, id, address, x.address);
  }

  lemma DropRepresents(h: seq<Op>, id: nat, list: seq<Subscriber>, address: nat)
    requires Represents(h, id, list) && Has(list, address)
    ensures Represents(h + [Drop(id, address)], id, Remove(list, address))
  {
    var h', p, list' := h + [Drop(id, address)], Position(list, address), Remove(list, address);
    RemoveAt(list, address);
    DropMembers(h, id, list, address);
    RemovedIsGone(h, id, list, address);
    assert forall i :: 0 <= i < |list'| ==> list'[i].address != address;
    forall i | 0 <= i < |list'|
      ensures Origin(h', id, list'[i])
    {
      assert list'[i] == list[Shift(i, p)];
      DropOrigin(h, id, address, list'[i]);
    }
    forall i, j | 0 <= i < j < |list'|
      ensures Younger(h', id, list'[i], list'[j])
    {
      assert Younger(h, id, list[Shift(i, p)], list[Shift(j, p)]);
      DropYounger(h, id, address, list'[i], list'[j]);
    }
  }

  lemma HasAfterRemove(list: seq<Subscriber>, address: nat, a: nat)
    requires a != address && Has(list, address)
    ensures Has(Remove(list, address), a) <==> Has(list, a)
  {
    RemoveAt(list, address);
    var p := Position(list, address);
    if Has(list, a) {
      var i :| 0 <= i < |list| && list[i].address == a;
      assert Remove(list, address)[if i < p then i else i - 1].address == a;
    }
  }

  /** Over any run of Subscribe and Unsubscribe calls, every list holds exactly the subscriptions
      made and not removed since, without duplicates, newest first. */
  lemma {:induction false} RunRepresents(h: seq<Op>, id: nat)
    requires id < MSG_MAX_MSG_IDS
    ensures Represents(h, id, Run(h)[id])
    decreases |h|
  {
    if h != [] {
      var most, op := h[..|h| - 1], h[|h| - 1];
      RunRepresents(most, id);
      assert most + [op] == h;
      var list := Run(most)[id];
      if op.id != id {
        IdleRepresents(most, id, list, op);
      } else if op.Add? {
        if Admits(Run(most), id, op.who) {
          AddRepresents(most, id, list, op.who);
        } else {
          IdleRepresents(most, id, list, op);
        }
      } else if Has(list, op.address) {
        DropRepresents(most, id, list, op.address);
      } else {
        RemoveAt(list, op.address);
        IdleRepresents(most, id, list, op);
      }
    }
  }

  // ---------- Removing a receiver everywhere ----------

  function DropAll(t: Table, address: nat, n: nat): Table
    requires n <= MSG_MAX_MSG_IDS
  {
    if n == 0 then t else Apply(DropAll(t, address, n - 1), Drop(n - 1, address))
  }

  /** `UnsubscribeAllIDs` takes the receiver off every list and leaves all others, in order. */
  lemma {:induction false} DropAllRemoves(t: Table, address: nat, n: nat, id: nat)
    requires n <= MSG_MAX_MSG_IDS && id < MSG_MAX_MSG_IDS && Distinct(t[id])
    ensures DropAll(t, address, n)[id] == if id < n then Without(t[id], address) else t[id]
    decreases n
  {
    if n > 0 {
      DropAllRemoves(t, address, n - 1, id);
      RemoveKeepsOthers(t[id], address);
    }
  }

  /** So after any history of calls, unsubscribing a receiver from all ids leaves on each list exactly
      the others, in order. */
  lemma DropAllAfterRun(h: seq<Op>, address: nat, id: nat)
    requires id < MSG_MAX_MSG_IDS
    ensures DropAll(Run(h), address, MSG_MAX_MSG_IDS)[id] == Without(Run(h)[id], address)
  {
    RunRepresents(h, id);
    var list := Run(h)[id];
    assert forall i, j :: 0 <= i < j < |list| ==> Younger(h, id, list[i], list[j]);
    DropAllRemoves(Run(h), address, MSG_MAX_MSG_IDS, id);
  }
}
