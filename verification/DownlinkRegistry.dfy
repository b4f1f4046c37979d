// The downlink fan-out of src/data_router.rs: senders per app, delivery, and the removal of dead ones.
module Downlink {
  import opened Wrappers

  // A channel's sending side, told apart by the channel it belongs to.
  datatype Sender = Sender(channel: nat)

  datatype Message = Message(topic: string, payload: seq<int>)

  // ------------------------------------------------------------- removing by swap

  // Vec::swap_remove: the last element takes the removed one's place.
  function SwapRemoved(v: seq<Sender>, i: nat): (rest: seq<Sender>)
    requires i < |v|
    ensures |rest| == |v| - 1
    ensures forall j | 0 <= j < |v| - 1 && j != i :: rest[j] == v[j]
    ensures i < |v| - 1 ==> rest[i] == v[|v| - 1]
  {
    v[i := v[|v| - 1]][..|v| - 1]
  }

  lemma Cancel<T>(a: multiset<T>, b: multiset<T>, c: multiset<T>)
    requires a + c == b + c
    ensures a == b
  {
    forall x ensures a[x] == b[x] {
      assert (a + c)[x] == (b + c)[x];
    }
  }

  lemma SwapRemovedDropsOne(v: seq<Sender>, i: nat)
    requires i < |v|
    ensures multiset(SwapRemoved(v, i)) == multiset(v) - multiset{v[i]}
  {
    var last := v[|v| - 1];
    var swapped := v[i := last];
    assert swapped == SwapRemoved(v, i) + [last];
    assert multiset(swapped) == multiset(v) - multiset{v[i]} + multiset{last};
    assert multiset(SwapRemoved(v, i) + [last]) == multiset(SwapRemoved(v, i)) + multiset{last};
    Cancel(multiset(SwapRemoved(v, i)), multiset(v) - multiset{v[i]}, multiset{last});
  }

  // Removing at the indices of `dead` from the last to the first; None when one is out of range,
  // where the original panics.
  function Swept(v: seq<Sender>, dead: seq<nat>): Option<seq<Sender>>
    decreases |dead|
  {
    if dead == [] then Some(v)
    else
      var i := dead[|dead| - 1];
      if i < |v| then Swept(SwapRemoved(v, i), dead[..|dead| - 1]) else None
  }

  ghost predicate Ascending(indices: seq<nat>) {
    forall a, b | 0 <= a < b < |indices| :: indices[a] < indices[b]
  }

  ghost predicate InRange(indices: seq<nat>, bound: nat) {
    forall a | 0 <= a < |indices| :: indices[a] < bound
  }

  function At(v: seq<Sender>, indices: seq<nat>): (senders: seq<Sender>)
    requires InRange(indices, |v|)
    ensures |senders| == |indices|
    ensures forall a | 0 <= a < |indices| :: senders[a] == v[indices[a]]
  {
    seq(|indices|, a requires 0 <= a < |indices| => v[indices[a]])
  }

  lemma AtSnoc(v: seq<Sender>, indices: seq<nat>, i: nat)
    requires InRange(indices, |v|) && i < |v|
    ensures InRange(indices + [i], |v|)
    ensures At(v, indices + [i]) == At(v, indices) + [v[i]]
  {
  }

  lemma AtAgrees(v: seq<Sender>, w: seq<Sender>, indices: seq<nat>)
    requires InRange(indices, |v|) && InRange(indices, |w|)
    requires forall a | 0 <= a < |indices| :: v[indices[a]] == w[indices[a]]
    ensures At(v, indices) == At(w, indices)
  {
  }

  lemma OneMoreOut<T>(all: multiset<T>, x: T, a: multiset<T>)
    requires x in all && a <= all - multiset{x}
    ensures all - multiset{x} - a == all - (a + multiset{x}) && a + multiset{x} <= all
  {
  }

  // On any list, descending removal stays in range exactly when the indices do, and takes out exactly
  // the senders that stood there.
  lemma {:induction false} SweepTakesOutExactlyThese(v: seq<Sender>, dead: seq<nat>)
    requires Ascending(dead)
    ensures Swept(v, dead).Some? <==> InRange(dead, |v|)
    ensures Swept(v, dead).Some? ==> multiset(Swept(v, dead).value) == multiset(v) - multiset(At(v, dead))
                                     && multiset(At(v, dead)) <= multiset(v)
    decreases |dead|
  {
    if dead == [] {
    } else {
      var init, i := dead[..|dead| - 1], dead[|dead| - 1];
      if i < |v| {
        hide At;
        var rest := SwapRemoved(v, i);
        SwapRemovedDropsOne(v, i);
        SweepTakesOutExactlyThese(rest, init);
        AtAgrees(rest, v, init);
        AtSnoc(v, init, i);
        assert dead == init + [i];
        OneMoreOut(multiset(v), v[i], multiset(At(v, init)));
      }
    }
  }

  lemma NothingToSweep(v: seq<Sender>)
    ensures Swept(v, []) == Some(v) && At(v, []) == []
  {
  }

  // ------------------------------------------------------------------ sending

  function DeadUpTo(fails: nat -> bool, n: nat): (dead: seq<nat>)
    ensures Ascending(dead) && InRange(dead, n)
  {
    if n == 0 then [] else DeadUpTo(fails, n - 1) + if fails(n - 1) then [n - 1] else []
  }

  lemma {:induction false} DeadAreTheFailures(fails: nat -> bool, n: nat, i: nat)
    ensures i in DeadUpTo(fails, n) <==> i < n && fails(i)
  {
    if n == 0 {
    } else {
      DeadAreTheFailures(fails, n - 1, i);
    }
  }

  function Live(senders: seq<Sender>, fails: nat -> bool): seq<Sender> {
    if senders == [] then []
    else
      var n := |senders| - 1;
      Live(senders[..n], fails) + if fails(n) then [] else [senders[n]]
  }

  lemma LiveSnoc(senders: seq<Sender>, sender: Sender, fails: nat -> bool)
    ensures Live(senders + [sender], fails) == Live(senders, fails) + if fails(|senders|) then [] else [sender]
  {
    assert (senders + [sender])[..|senders|] == senders;
  }

  lemma DeadAtSnoc(senders: seq<Sender>, sender: Sender, fails: nat -> bool)
    ensures At(senders + [sender], DeadUpTo(fails, |senders| + 1))
         == At(senders, DeadUpTo(fails, |senders|)) + if fails(|senders|) then [sender] else []
  {
    hide At, Ascending;
    var n, more := |senders|, senders + [sender];
    var dead := DeadUpTo(fails, n);
    AtAgrees(senders, more, dead);
    AtSnoc(more, dead, n);
    assert At(senders, dead) + [] == At(senders, dead) && dead + [] == dead;
  }

  lemma {:induction false} DeadAndLivePartition(senders: seq<Sender>, fails: nat -> bool)
    ensures multiset(senders) == multiset(At(senders, DeadUpTo(fails, |senders|))) + multiset(Live(senders, fails))
  {
    if senders == [] {
    } else {
      hide Live, At, DeadUpTo;
      var init, last := senders[..|senders| - 1], senders[|senders| - 1];
      DeadAndLivePartition(init, fails);
      assert senders == init + [last];
      LiveSnoc(init, last, fails);
      DeadAtSnoc(init, last, fails);
    }
  }

  // What each channel has been sent.
  function Sent(channels: map<Sender, seq<Message>>, receivers: seq<Sender>, message: Message)
    : map<Sender, seq<Message>>
  {
    if receivers == [] then channels
    else
      var last := receivers[|receivers| - 1];
      var before := Sent(channels, receivers[..|receivers| - 1], message);
      before[last := ListAt(before, last) + [message]]
  }

  lemma SentSnoc(channels: map<Sender, seq<Message>>, receivers: seq<Sender>, receiver: Sender, message: Message)
    ensures var before := Sent(channels, receivers, message);
            Sent(channels, receivers + [receiver], message) == before[receiver := ListAt(before, receiver) + [message]]
  {
    assert (receivers + [receiver])[..|receivers|] == receivers;
  }

  // Every channel receives the message once per live sender it has in the list.
  lemma {:induction false} SentCounts(
    channels: map<Sender, seq<Message>>, receivers: seq<Sender>, message: Message, s: Sender)
    ensures ListAt(Sent(channels, receivers, message), s)
         == ListAt(channels, s) + seq(multiset(receivers)[s], _ => message)
    decreases |receivers|
  {
    if receivers == [] {
    } else {
      var init := receivers[..|receivers| - 1];
      SentCounts(channels, init, message, s);
      assert receivers == init + [receivers[|receivers| - 1]];
    }
  }

  lemma SentToNobody(channels: map<Sender, seq<Message>>, fails: nat -> bool, message: Message)
    ensures Sent(channels, Live([], fails), message) == channels
  {
  }

  // The sweep of one app's list within the registry.
  function SweptIn(inner: map<string, seq<Sender>>, app: string, dead: seq<nat>): map<string, seq<Sender>> {
    if dead != [] && app in inner && Swept(inner[app], dead).Some? then inner[app := Swept(inner[app], dead).value]
    else inner
  }

  // No sender is listed twice, and only channels below `bound` are.
  ghost predicate OneEach(senders: seq<Sender>, bound: nat) {
    forall s: Sender :: multiset(senders)[s] <= if s.channel < bound then 1 else 0
  }

  lemma LiveAreOneEach(senders: seq<Sender>, fails: nat -> bool, bound: nat)
    requires OneEach(senders, bound)
    ensures OneEach(Live(senders, fails), bound)
  {
    hide Live, At, DeadUpTo;
    DeadAndLivePartition(senders, fails);
    forall s: Sender ensures multiset(Live(senders, fails))[s] <= multiset(senders)[s] {
    }
  }

  lemma OneCopyEach(
    channels: map<Sender, seq<Message>>, senders: seq<Sender>, fails: nat -> bool, message: Message,
    bound: nat, s: Sender)
    requires OneEach(senders, bound)
    ensures var live := Live(senders, fails);
            ListAt(Sent(channels, live, message), s) == ListAt(channels, s) + if s in live then [message] else []
  {
    hide Live, Sent;
    var live := Live(senders, fails);
    LiveAreOneEach(senders, fails, bound);
    SentCounts(channels, live, message, s);
    assert s in multiset(live) <==> s in live;
  }

  lemma OneMore(senders: seq<Sender>, bound: nat)
    requires OneEach(senders, bound)
    ensures OneEach(senders, bound + 1) && OneEach(senders + [Sender(bound)], bound + 1)
    ensures Sender(bound) !in senders
  {
    assert multiset(senders)[Sender(bound)] == 0;
    assert multiset(senders + [Sender(bound)]) == multiset(senders) + multiset{Sender(bound)};
  }

  lemma SameOneEach(a: seq<Sender>, b: seq<Sender>, bound: nat)
    requires multiset(a) == multiset(b) && OneEach(b, bound)
    ensures OneEach(a, bound)
  {
  }

  lemma NobodyTwice(bound: nat)
    ensures OneEach([], bound)
  {
  }

  lemma UninterruptedSweep(inner: map<string, seq<Sender>>, app: string, fails: nat -> bool, bound: nat)
    requires forall other :: OneEach(ListAt(inner, other), bound)
    ensures var senders := ListAt(inner, app);
            var dead := DeadUpTo(fails, |senders|);
            var after := SweptIn(inner, app, dead);
            && InRange(dead, |senders|)
            && multiset(ListAt(after, app)) == multiset(Live(senders, fails))
            && (forall other | other != app :: ListAt(after, other) == ListAt(inner, other))
            && (forall other :: OneEach(ListAt(after, other), bound))
  {
    hide Live, DeadUpTo, At, Ascending, OneEach, Swept, InRange;
    var senders := ListAt(inner, app);
    var dead := DeadUpTo(fails, |senders|);
    DeadAndLivePartition(senders, fails);
    SweepTakesOutExactlyThese(senders, dead);
    NothingToSweep(senders);
    LiveAreOneEach(senders, fails, bound);
    NobodyTwice(bound);
    SameOneEach(ListAt(SweptIn(inner, app, dead), app), Live(senders, fails), bound);
  }

  // --------------------------------------------------------------- the registry

  class DownlinkRegistry {
    var inner: map<string, seq<Sender>>
    var channels: map<Sender, seq<Message>>
    var nextChannel: nat

    // Each subscription has its own channel.
    ghost predicate Valid()
      reads this
    {
      forall app :: OneEach(ListAt(inner, app), nextChannel)
    }

    constructor ()
      ensures Valid() && inner == map[]
    {
      inner := map[];
      channels := map[];
      nextChannel := 0;
    }

    method Subscribe(app: string) returns (sender: Sender)
      requires Valid()
      modifies this
      ensures Valid()
      ensures inner == old(inner)[app := ListAt(old(inner), app) + [sender]]
      ensures forall other :: sender !in ListAt(old(inner), other)
      ensures channels == old(channels)
    {
      hide OneEach;
      sender := Sender(nextChannel);
      nextChannel := nextChannel + 1;
      inner := inner[app := ListAt(inner, app) + [sender]];
      forall other
        ensures OneEach(ListAt(inner, other), nextChannel) && sender !in ListAt(old(inner), other)
      {
        OneMore(ListAt(old(inner), other), old(nextChannel));
      }
    }

    // Under the read lock the senders are copied; then each is sent the message. `fails(i)` is
    // whether the receiver of sender i is gone when its turn comes.
    method Broadcast(app: string, message: Message, fails: nat -> bool) returns (senders: seq<Sender>, dead: seq<nat>)
      modifies this`channels
      ensures senders == ListAt(inner, app) && dead == DeadUpTo(fails, |senders|)
      ensures channels == Sent(old(channels), Live(senders, fails), message)
    {
      hide Live, Sent;
      senders := ListAt(inner, app);
      dead := [];
      SentToNobody(channels, fails, message);
      for i := 0 to |senders|
        invariant dead == DeadUpTo(fails, i)
        invariant channels == Sent(old(channels), Live(senders[..i], fails), message)
      {
        assert senders[..i + 1] == senders[..i] + [senders[i]];
        LiveSnoc(senders[..i], senders[i], fails);
        if fails(i) {
          dead := dead + [i];
          assert Live(senders[..i], fails) + [] == Live(senders[..i], fails);
        } else {
          SentSnoc(old(channels), Live(senders[..i], fails), senders[i], message);
          channels := channels[senders[i] := ListAt(channels, senders[i]) + [message]];
        }
      }
      assert senders[..|senders|] == senders;
    }

    // Under the write lock the dead senders' indices are removed from the list as it is by then.
    method Sweep(app: string, dead: seq<nat>) returns (ok: bool)
      requires Ascending(dead)
      modifies this`inner
      ensures ok <==> dead == [] || app !in old(inner) || InRange(dead, |old(inner)[app]|)
      ensures inner == SweptIn(old(inner), app, dead)
    {
      if dead == [] || app !in inner {
        return true;
      }
      ghost var was := inner[app];
      SweepTakesOutExactlyThese(was, dead);
      assert dead[..|dead|] == dead;
      for n := |dead| downto 0
        invariant app in inner && inner == old(inner)[app := inner[app]]
        invariant Swept(inner[app], dead[..n]) == Swept(was, dead)
        invariant n == |dead| ==> inner[app] == was
        invariant n < |dead| ==> InRange(dead, |was|) && (n > 0 ==> dead[n - 1] < |inner[app]|)
      {
        if dead[n] >= |inner[app]| {
          return false;
        }
        assert dead[..n + 1][..n] == dead[..n];
        inner := inner[app := SwapRemoved(inner[app], dead[n])];
      }
      return true;
    }

    // A delivery that nothing interrupts.
    method Deliver(app: string, message: Message, fails: nat -> bool) returns (ok: bool)
      requires Valid()
      modifies this
      ensures Valid() && ok && nextChannel == old(nextChannel)
      ensures multiset(ListAt(inner, app)) == multiset(Live(ListAt(old(inner), app), fails))
      ensures forall other | other != app :: ListAt(inner, other) == ListAt(old(inner), other)
      ensures forall s: Sender ::
        ListAt(channels, s)
        == ListAt(old(channels), s) + if s in Live(ListAt(old(inner), app), fails) then [message] else []
    {
      hide Live, DeadUpTo, Sent, SweptIn, Ascending, InRange, OneEach;
      UninterruptedSweep(inner, app, fails, nextChannel);
      var senders, dead := Broadcast(app, message, fails);
      ok := Sweep(app, dead);
      forall s: Sender
        ensures ListAt(channels, s) == ListAt(old(channels), s) + if s in Live(senders, fails) then [message] else []
      {
        OneCopyEach(old(channels), senders, fails, message, nextChannel, s);
      }
    }

    method RemoveApp(app: string)
      requires Valid()
      modifies this`inner
      ensures Valid() && inner == old(inner) - {app}
    {
      hide OneEach;
      inner := inner - {app};
      NobodyTwice(nextChannel);
      assert forall other | other != app :: ListAt(inner, other) == ListAt(old(inner), other);
    }
  }

  // ------------------------------------------------- what may happen between the locks

  datatype Event = Subscribed(app: string, sender: Sender) | SweptAt(app: string, dead: seq<nat>) | Dropped(app: string)

  function After(inner: map<string, seq<Sender>>, event: Event): map<string, seq<Sender>> {
    match event
    case Subscribed(app, sender) => inner[app := ListAt(inner, app) + [sender]]
    case SweptAt(app, dead) =>
      SweptIn(inner, app, dead)
    case Dropped(app) => inner - {app}
  }

  function AfterAll(inner: map<string, seq<Sender>>, events: seq<Event>): map<string, seq<Sender>> {
    if events == [] then inner
    else After(AfterAll(inner, events[..|events| - 1]), events[|events| - 1])
  }

  function SubscribedTo(events: seq<Event>, app: string): seq<Sender> {
    if events == [] then []
    else
      var last := events[|events| - 1];
      SubscribedTo(events[..|events| - 1], app)
      + if last.Subscribed? && last.app == app then [last.sender] else []
  }

  // Between the locks nothing but subscribing happens to this app's list.
  ghost predicate OnlySubscribes(events: seq<Event>, app: string) {
    forall k | 0 <= k < |events| :: events[k].app == app ==> events[k].Subscribed?
  }

  lemma {:induction false} SubscribersAreAppended(inner: map<string, seq<Sender>>, events: seq<Event>, app: string)
    requires OnlySubscribes(events, app)
    ensures ListAt(AfterAll(inner, events), app) == ListAt(inner, app) + SubscribedTo(events, app)
    decreases |events|
  {
    hide Swept;
    if events == [] {
    } else {
      SubscribersAreAppended(inner, events[..|events| - 1], app);
      assert events[|events| - 1].app == app ==> events[|events| - 1].Subscribed?;
    }
  }

  // Whatever happens to other apps, and whoever subscribes, between the two locks of a delivery: its
  // sweep is in range and leaves exactly the live senders of the snapshot plus the new subscribers.
  lemma SweepLeavesLiveAndNew(inner: map<string, seq<Sender>>, events: seq<Event>, app: string, fails: nat -> bool)
    requires OnlySubscribes(events, app)
    ensures var senders := ListAt(inner, app);
            var dead, v := DeadUpTo(fails, |senders|), ListAt(AfterAll(inner, events), app);
            && Swept(v, dead).Some?
            && multiset(Swept(v, dead).value) == multiset(Live(senders, fails)) + multiset(SubscribedTo(events, app))
  {
    hide Swept, Live, DeadUpTo, SubscribedTo, AfterAll;
    var senders, extra := ListAt(inner, app), SubscribedTo(events, app);
    var dead, v := DeadUpTo(fails, |senders|), ListAt(AfterAll(inner, events), app);
    SubscribersAreAppended(inner, events, app);
    DeadAndLivePartition(senders, fails);
    SweepTakesOutExactlyThese(v, dead);
    assert At(v, dead) == At(senders, dead);
    assert multiset(v) == multiset(senders) + multiset(extra);
  }

  // In general a sweep of list v removes the dead senders it found, and nothing else, exactly when
  // those senders still stand at the dead indices (in some order).
  lemma SweepIsRightIff(senders: seq<Sender>, v: seq<Sender>, dead: seq<nat>)
    requires Ascending(dead) && InRange(dead, |senders|)
    ensures (Swept(v, dead).Some? && multiset(Swept(v, dead).value) == multiset(v) - multiset(At(senders, dead)))
       <==> (InRange(dead, |v|) && multiset(At(v, dead)) == multiset(At(senders, dead)))
  {
    hide Swept, At;
    SweepTakesOutExactlyThese(v, dead);
    if Swept(v, dead).Some? && multiset(Swept(v, dead).value) == multiset(v) - multiset(At(senders, dead)) {
      SameDifference(multiset(v), multiset(At(v, dead)), multiset(At(senders, dead)));
    }
  }

  lemma SameDifference<T>(all: multiset<T>, a: multiset<T>, b: multiset<T>)
    requires a <= all && |a| == |b| && all - a == all - b
    ensures a == b
  {
    forall x ensures a[x] <= b[x] {
      assert (all - a)[x] == (all - b)[x];
    }
    assert b == a + (b - a);
    assert |b - a| == 0;
  }

  // Two deliveries that copied the same senders and found the same ones dead: the first sweep is right,
  // the second is out of range or takes out live senders.
  lemma SecondSweepHarms(senders: seq<Sender>, fails: nat -> bool)
    requires DeadUpTo(fails, |senders|) != []
    ensures var dead, live := DeadUpTo(fails, |senders|), multiset(Live(senders, fails));
            var first := Swept(senders, dead);
            && first.Some? && multiset(first.value) == live
            && var second := Swept(first.value, dead);
               if |first.value| <= dead[|dead| - 1] then second.None?
               else second.Some? && multiset(second.value) < live
  {
    hide Swept, Live, DeadUpTo;
    var dead := DeadUpTo(fails, |senders|);
    DeadAndLivePartition(senders, fails);
    SweepTakesOutExactlyThese(senders, dead);
    var first := Swept(senders, dead).value;
    assert multiset(first) == multiset(Live(senders, fails));
    SweepTakesOutExactlyThese(first, dead);
    if dead[|dead| - 1] < |first| {
      assert InRange(dead, |first|);
      var gone := At(first, dead);
      assert gone[0] in multiset(gone);
    }
  }
}
