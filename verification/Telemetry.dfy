// The telemetry scheduler of src/telemetry.rs, polled as in src/app.rs, and the collection it
// shares between profiles (src/state.rs).
module Telemetry {
  import opened Wrappers

  function SaturatingAdd(a: U64, b: U64): U64 {
    if a + b <= U64_MAX then a + b else U64_MAX
  }

  function Capped(n: nat): U64 {
    if n <= U64_MAX then n else U64_MAX
  }

  function AtLeastOne(n: U64): (r: U64)
    ensures r >= 1
  {
    if n >= 1 then n else 1
  }

  // ---------------------------------------------------------- advancing a deadline

  // Multiples of the interval to add: enough to pass `now`, and at least one.
  function Slots(previous: nat, interval: nat, now: nat): (k: nat)
    requires interval >= 1
    ensures k >= 1 && previous + k * interval > now
    ensures forall j :: 1 <= j < k ==> previous + j * interval <= now
  {
    if previous > now then
      assert 1 * interval == interval;
      1
    else
      var k := (now - previous) / interval + 1;
      assert k * interval > now - previous && (k - 1) * interval <= now - previous;
      assert forall j :: 1 <= j < k ==> j * interval <= (k - 1) * interval by {
        forall j | 1 <= j < k ensures j * interval <= (k - 1) * interval {
          MultiplesAscend(j, k - 1, interval);
        }
      }
      k
  }

  lemma MultiplesAscend(j: nat, k: nat, interval: nat)
    requires j <= k
    ensures j * interval <= k * interval
  {
  }

  // The deadline after a poll: previous + k * interval with the least k >= 1 that passes now,
  // which saturation caps.
  function ClosedForm(previous: U64, interval: U64, now: U64): U64 {
    var step := AtLeastOne(interval);
    Capped(previous + Slots(previous, step, now) * step)
  }

  // The k-th multiple of the step after `previous` is the first beyond `now`.
  ghost predicate FirstBeyond(previous: nat, step: nat, now: nat, k: nat) {
    k >= 1 && previous + k * step > now && (k == 1 || previous + (k - 1) * step <= now)
  }

  lemma ClosedFormIsFirstBeyond(previous: U64, interval: U64, now: U64) returns (k: nat)
    ensures var step := if interval == 0 then 1 else interval;
            && FirstBeyond(previous, step, now, k)
            && ClosedForm(previous, interval, now)
               == if previous + k * step <= 0xFFFF_FFFF_FFFF_FFFF then previous + k * step else 0xFFFF_FFFF_FFFF_FFFF
  {
    k := Slots(previous, AtLeastOne(interval), now);
  }

  // The loop ends for every input but now = u64::MAX, and computes the first multiple of the interval
  // after the previous deadline that lies beyond now, capped; an interval of 0 counts as 1.
  method AdvanceDueTime(previousDeadline: U64, interval: U64, now: U64) returns (next: U64)
    requires now < U64_MAX
    ensures next == ClosedForm(previousDeadline, interval, now)
    ensures var step := if interval == 0 then 1 else interval;
            exists k: nat :: FirstBeyond(previousDeadline, step, now, k)
              && next == if previousDeadline + k * step <= 0xFFFF_FFFF_FFFF_FFFF then previousDeadline + k * step
                         else 0xFFFF_FFFF_FFFF_FFFF
  {
    ghost var count := ClosedFormIsFirstBeyond(previousDeadline, interval, now);
    var step := AtLeastOne(interval);
    ghost var slots := Slots(previousDeadline, step, now);
    ghost var k: nat := 1;
    next := SaturatingAdd(previousDeadline, step);
    while next <= now
      invariant 1 <= k <= slots
      invariant next == Capped(previousDeadline + k * step)
      decreases slots - k
    {
      assert previousDeadline + k * step <= now;
      assert (k + 1) * step == k * step + step;
      next := SaturatingAdd(next, step);
      k := k + 1;
    }
  }

  // The n-th value `next` takes in the loop.
  function LoopValue(previous: U64, interval: U64, n: nat): U64 {
    if n == 0 then SaturatingAdd(previous, AtLeastOne(interval))
    else SaturatingAdd(LoopValue(previous, interval, n - 1), AtLeastOne(interval))
  }

  lemma {:induction false} LoopValueIsCapped(previous: U64, interval: U64, n: nat)
    ensures LoopValue(previous, interval, n) == Capped(previous + (n + 1) * AtLeastOne(interval))
  {
    hide AtLeastOne;
    var step := AtLeastOne(interval);
    if n == 0 {
      assert 1 * step == step;
    } else {
      LoopValueIsCapped(previous, interval, n - 1);
      assert (n + 1) * step == n * step + step;
    }
  }

  // Exactly when the loop terminates: some value passes now if and only if now is not u64::MAX.
  lemma LoopTerminatesIff(previous: U64, interval: U64, now: U64)
    ensures (exists n: nat :: LoopValue(previous, interval, n) > now) <==> now < U64_MAX
  {
    if now < U64_MAX {
      var step := AtLeastOne(interval);
      var n := Slots(previous, step, now) - 1;
      LoopValueIsCapped(previous, interval, n);
      assert LoopValue(previous, interval, n) > now;
    }
  }

  // --------------------------------------------------------- shared collection

  datatype Include = RuntimeBasic | RuntimeSystem | RuntimeApps | RuntimeNetwork | RuntimeStorage

  datatype Profile = Profile(id: string, enabled: bool, interval: U64, includes: seq<Include>)

  // The runtime section: the part shown for RuntimeBasic and the part shown for RuntimeSystem.
  datatype Runtime<B, S> = Runtime(basic: B, system: S)

  // Everything the device could report at one moment.
  datatype Device<B, S, A, N, D> = Device(ts: int, runtime: Runtime<B, S>, apps: seq<A>, network: N, storage: seq<D>)

  datatype Sections<B, S, A, N, D> = Sections(
    ts: int, runtime: Option<Runtime<B, S>>, apps: Option<seq<A>>, network: Option<N>, storage: Option<seq<D>>)

  datatype RuntimeView<B, S> = RuntimeView(basic: Option<B>, system: Option<S>)

  datatype Bundle<B, S, A, N, D> = Bundle(
    ts: int, deviceId: string, profilesVersion: U64, runtime: Option<RuntimeView<B, S>>, apps: Option<seq<A>>,
    network: Option<N>, storage: Option<seq<D>>, profile: Profile)

  // collect_telemetry_sections: read only what some include asks for.
  function Collected<B, S, A, N, D>(device: Device<B, S, A, N, D>, includes: set<Include>): Sections<B, S, A, N, D> {
    Sections(
      device.ts,
      if RuntimeBasic in includes || RuntimeSystem in includes then Some(device.runtime) else None,
      if RuntimeApps in includes then Some(device.apps) else None,
      if RuntimeNetwork in includes then Some(device.network) else None,
      if RuntimeStorage in includes then Some(device.storage) else None)
  }

  function BundleFor<B, S, A, N, D>(
    collected: Sections<B, S, A, N, D>, deviceId: string, version: U64, profile: Profile): Bundle<B, S, A, N, D>
  {
    var basic, system := RuntimeBasic in profile.includes, RuntimeSystem in profile.includes;
    var runtime :=
      if collected.runtime.None? then None
      else
        var view := RuntimeView(
          if basic then Some(collected.runtime.value.basic) else None,
          if system then Some(collected.runtime.value.system) else None);
        if view.basic.Some? || view.system.Some? then Some(view) else None;
    Bundle(
      collected.ts, deviceId, version, runtime,
      if RuntimeApps in profile.includes then Some(collected.apps.GetOr([])) else None,
      if RuntimeNetwork in profile.includes then collected.network else None,
      if RuntimeStorage in profile.includes then Some(collected.storage.GetOr([])) else None,
      profile)
  }

  function IncludesOf(profile: Profile): set<Include> {
    set i | i in profile.includes
  }

  // ------------------------------------------------------------- the scheduler

  datatype Scheduled = Scheduled(profile: Profile, next: U64)

  function Started(profiles: seq<Profile>, start: U64): (scheduled: seq<Scheduled>)
    ensures forall s | s in scheduled :: s.profile.enabled && s.next == start
  {
    if profiles == [] then []
    else (if profiles[0].enabled then [Scheduled(profiles[0], start)] else []) + Started(profiles[1..], start)
  }

  function DueUpTo(scheduled: seq<Scheduled>, now: U64, n: nat): (indices: seq<nat>)
    requires n <= |scheduled|
    ensures forall i :: i in indices <==> 0 <= i < n && scheduled[i].next <= now
    ensures forall a | 0 <= a < |indices| :: indices[a] < n
    ensures forall a, b | 0 <= a < b < |indices| :: indices[a] < indices[b]
  {
    if n == 0 then []
    else DueUpTo(scheduled, now, n - 1) + if scheduled[n - 1].next <= now then [n - 1] else []
  }

  function Due(scheduled: seq<Scheduled>, now: U64): (indices: seq<nat>)
    ensures forall a | 0 <= a < |indices| :: indices[a] < |scheduled|
  {
    DueUpTo(scheduled, now, |scheduled|)
  }

  function IncludesAt(scheduled: seq<Scheduled>, indices: seq<nat>): (includes: set<Include>)
    requires forall a | 0 <= a < |indices| :: indices[a] < |scheduled|
    ensures forall a | 0 <= a < |indices| :: IncludesOf(scheduled[indices[a]].profile) <= includes
    ensures forall x | x in includes :: exists a | 0 <= a < |indices| :: x in IncludesOf(scheduled[indices[a]].profile)
  {
    if indices == [] then {}
    else IncludesAt(scheduled, indices[..|indices| - 1]) + IncludesOf(scheduled[indices[|indices| - 1]].profile)
  }

  // The schedule after advancing the profiles at `indices` in turn.
  function Advanced(scheduled: seq<Scheduled>, indices: seq<nat>, now: U64): (after: seq<Scheduled>)
    requires forall a | 0 <= a < |indices| :: indices[a] < |scheduled|
    ensures |after| == |scheduled|
    ensures forall i | 0 <= i < |scheduled| :: after[i].profile == scheduled[i].profile
    decreases |indices|
  {
    if indices == [] then scheduled
    else
      var before := Advanced(scheduled, indices[..|indices| - 1], now);
      var index := indices[|indices| - 1];
      before[index := before[index].(next := ClosedForm(before[index].next, before[index].profile.interval, now))]
  }

  // What one poll does: every due deadline moves past now, every other one stays.
  function PolledOne(s: Scheduled, now: U64): Scheduled {
    if s.next <= now then s.(next := ClosedForm(s.next, s.profile.interval, now)) else s
  }

  function Polled(scheduled: seq<Scheduled>, now: U64): (after: seq<Scheduled>)
    ensures |after| == |scheduled|
    ensures forall i | 0 <= i < |after| :: after[i] == PolledOne(scheduled[i], now)
  {
    seq(|scheduled|, i requires 0 <= i < |scheduled| => PolledOne(scheduled[i], now))
  }

  lemma AdvancedSnoc(scheduled: seq<Scheduled>, indices: seq<nat>, index: nat, now: U64)
    requires forall a | 0 <= a < |indices| :: indices[a] < |scheduled|
    requires index < |scheduled|
    ensures forall a | 0 <= a < |indices + [index]| :: (indices + [index])[a] < |scheduled|
    ensures var before := Advanced(scheduled, indices, now);
            var next := ClosedForm(before[index].next, before[index].profile.interval, now);
            Advanced(scheduled, indices + [index], now) == before[index := before[index].(next := next)]
  {
    hide ClosedForm;
    assert (indices + [index])[..|indices|] == indices;
  }

  lemma {:induction false} AdvancingDueUpTo(scheduled: seq<Scheduled>, now: U64, n: nat)
    requires n <= |scheduled|
    ensures forall i | 0 <= i < |scheduled| ::
      Advanced(scheduled, DueUpTo(scheduled, now, n), now)[i]
      == if i < n then PolledOne(scheduled[i], now) else scheduled[i]
  {
    hide ClosedForm, Advanced;
    if n == 0 {
      NothingToAdvance(scheduled, now);
    } else {
      AdvancingDueUpTo(scheduled, now, n - 1);
      var fewer := DueUpTo(scheduled, now, n - 1);
      if scheduled[n - 1].next <= now {
        AdvancedSnoc(scheduled, fewer, n - 1, now);
      } else {
        assert DueUpTo(scheduled, now, n) == fewer;
      }
    }
  }

  lemma NothingToAdvance(scheduled: seq<Scheduled>, now: U64)
    ensures Advanced(scheduled, [], now) == scheduled
  {
  }

  class TelemetryScheduler {
    var profiles: seq<Scheduled>

    constructor (profiles: seq<Profile>, start: U64)
      ensures this.profiles == Started(profiles, start)
    {
      this.profiles := Started(profiles, start);
    }

    method DueCollectionIndices(now: U64) returns (indices: seq<nat>)
      ensures indices == Due(profiles, now)
    {
      indices := [];
      for i := 0 to |profiles|
        invariant indices == DueUpTo(profiles, now, i)
      {
        if profiles[i].next <= now {
          indices := indices + [i];
        }
      }
    }

    method CollectionIncludes(indices: seq<nat>) returns (includes: set<Include>)
      requires forall a | 0 <= a < |indices| :: indices[a] < |profiles|
      ensures includes == IncludesAt(profiles, indices)
    {
      includes := {};
      for n := 0 to |indices|
        invariant includes == IncludesAt(profiles, indices[..n])
      {
        assert indices[..n + 1][..n] == indices[..n];
        includes := includes + IncludesOf(profiles[indices[n]].profile);
      }
      assert indices[..|indices|] == indices;
    }

    method CollectDueBundles<B, S, A, N, D>(
      indices: seq<nat>, now: U64, collected: Sections<B, S, A, N, D>, deviceId: string, version: U64)
      returns (bundles: seq<Bundle<B, S, A, N, D>>)
      requires now < U64_MAX
      requires forall a | 0 <= a < |indices| :: indices[a] < |profiles|
      modifies this
      ensures profiles == Advanced(old(profiles), indices, now)
      ensures |bundles| == |indices|
      ensures forall a | 0 <= a < |indices| ::
        bundles[a] == BundleFor(collected, deviceId, version, old(profiles)[indices[a]].profile)
    {
      hide ClosedForm, BundleFor;
      bundles := [];
      for n := 0 to |indices|
        invariant profiles == Advanced(old(profiles), indices[..n], now)
        invariant |bundles| == n
        invariant forall a | 0 <= a < n ::
          bundles[a] == BundleFor(collected, deviceId, version, old(profiles)[indices[a]].profile)
      {
        assert indices[..n + 1][..n] == indices[..n];
        var scheduled := profiles[indices[n]];
        bundles := bundles + [BundleFor(collected, deviceId, version, scheduled.profile)];
        var next := AdvanceDueTime(scheduled.next, scheduled.profile.interval, now);
        profiles := profiles[indices[n] := scheduled.(next := next)];
      }
      assert indices[..|indices|] == indices;
    }

    // One turn of the publishing loop.
    method Poll<B, S, A, N, D>(now: U64, device: Device<B, S, A, N, D>, deviceId: string, version: U64)
      returns (bundles: seq<Bundle<B, S, A, N, D>>)
      requires now < U64_MAX
      modifies this
      ensures profiles == Polled(old(profiles), now)
      ensures |bundles| == |Due(old(profiles), now)|
      ensures forall a | 0 <= a < |bundles| ::
        var profile := old(profiles)[Due(old(profiles), now)[a]].profile;
        bundles[a] == BundleFor(Collected(device, IncludesOf(profile)), deviceId, version, profile)
    {
      hide ClosedForm, BundleFor, Collected, Due, Advanced, IncludesOf;
      AdvancedIsPolled(profiles, now);
      var indices := DueCollectionIndices(now);
      if indices == [] {
        bundles := [];
        NothingDue(profiles, now);
        return;
      }
      var includes := CollectionIncludes(indices);
      var collected := Collected(device, includes);
      forall a | 0 <= a < |indices|
        ensures var profile := profiles[indices[a]].profile;
                BundleFor(collected, deviceId, version, profile)
                == BundleFor(Collected(device, IncludesOf(profile)), deviceId, version, profile)
      {
        SharedCollectionDoesNotInterfere(device, includes, deviceId, version, profiles[indices[a]].profile);
      }
      bundles := CollectDueBundles(indices, now, collected, deviceId, version);
    }
  }

  lemma AdvancedIsPolled(scheduled: seq<Scheduled>, now: U64)
    ensures Advanced(scheduled, Due(scheduled, now), now) == Polled(scheduled, now)
  {
    AdvancingDueUpTo(scheduled, now, |scheduled|);
  }

  lemma NothingDue(scheduled: seq<Scheduled>, now: U64)
    requires Due(scheduled, now) == []
    ensures Polled(scheduled, now) == scheduled
  {
    AdvancedIsPolled(scheduled, now);
  }

  // A bundle built from sections collected for any superset of the profile's includes, such as
  // the union over all due profiles, equals the bundle built from its own collection.
  lemma SharedCollectionDoesNotInterfere<B, S, A, N, D>(
    device: Device<B, S, A, N, D>, includes: set<Include>, deviceId: string, version: U64, profile: Profile)
    requires IncludesOf(profile) <= includes
    ensures BundleFor(Collected(device, includes), deviceId, version, profile)
         == BundleFor(Collected(device, IncludesOf(profile)), deviceId, version, profile)
  {
    assert forall x :: x in profile.includes <==> x in IncludesOf(profile);
  }

  // What a profile's bundle shows of the device: each part exactly when it is included, and a
  // runtime section only if it has something to show.
  lemma BundleShowsWhatIsIncluded<B, S, A, N, D>(
    device: Device<B, S, A, N, D>, deviceId: string, version: U64, profile: Profile)
    ensures var b := BundleFor(Collected(device, IncludesOf(profile)), deviceId, version, profile);
            && b.ts == device.ts && b.deviceId == deviceId && b.profilesVersion == version && b.profile == profile
            && (b.runtime.Some? <==> RuntimeBasic in profile.includes || RuntimeSystem in profile.includes)
            && (RuntimeBasic in profile.includes ==> b.runtime.value.basic == Some(device.runtime.basic))
            && (RuntimeSystem in profile.includes ==> b.runtime.value.system == Some(device.runtime.system))
            && (b.runtime.Some? && RuntimeBasic !in profile.includes ==> b.runtime.value.basic == None)
            && (b.runtime.Some? && RuntimeSystem !in profile.includes ==> b.runtime.value.system == None)
            && b.apps == (if RuntimeApps in profile.includes then Some(device.apps) else None)
            && b.network == (if RuntimeNetwork in profile.includes then Some(device.network) else None)
            && b.storage == (if RuntimeStorage in profile.includes then Some(device.storage) else None)
  {
    assert forall x :: x in profile.includes <==> x in IncludesOf(profile);
  }

  // A scheduler starts with exactly the enabled profiles, all due at once.
  lemma {:induction false} StartedAreTheEnabled(profiles: seq<Profile>, start: U64, profile: Profile, next: U64)
    ensures multiset(Started(profiles, start))[Scheduled(profile, next)]
         == if profile.enabled && next == start then multiset(profiles)[profile] else 0
  {
    if profiles == [] {
    } else {
      StartedAreTheEnabled(profiles[1..], start, profile, next);
      assert profiles == [profiles[0]] + profiles[1..];
    }
  }

  lemma NobodyStarted(profiles: seq<Profile>, start: U64)
    ensures Started([], start) + Started(profiles, start) == Started(profiles, start)
  {
  }

  lemma FirstStarted(profiles: seq<Profile>, start: U64)
    requires profiles != []
    ensures Started(profiles, start)
         == (if profiles[0].enabled then [Scheduled(profiles[0], start)] else []) + Started(profiles[1..], start)
  {
  }

  // They stand in the order of the profiles.
  lemma {:induction false} StartedKeepsOrder(a: seq<Profile>, b: seq<Profile>, start: U64)
    ensures Started(a + b, start) == Started(a, start) + Started(b, start)
  {
    hide Started;
    if a == [] {
      assert a + b == b;
      NobodyStarted(b, start);
    } else {
      StartedKeepsOrder(a[1..], b, start);
      FirstStarted(a, start);
      FirstStarted(a + b, start);
      assert (a + b)[0] == a[0] && (a + b)[1..] == a[1..] + b;
    }
  }

  // ------------------------------------------------------------- whole runs

  // Poll times of one scheduler: non-decreasing from its start on, and below u64::MAX.
  ghost predicate PollTimes(start: U64, polls: seq<U64>) {
    && (forall i | 0 <= i < |polls| :: start <= polls[i] < U64_MAX)
    && (forall i, j | 0 <= i < j < |polls| :: polls[i] <= polls[j])
  }

  // Which interval since the start a moment lies in.
  function Cell(start: nat, step: nat, now: nat): nat
    requires start <= now && step >= 1
  {
    (now - start) / step
  }

  // The k-th slot of the grid laid out from the start.
  function Slot(start: nat, step: nat, k: nat): nat {
    start + k * step
  }

  function AfterPolls(scheduled: seq<Scheduled>, polls: seq<U64>): (after: seq<Scheduled>)
    ensures |after| == |scheduled|
    decreases |polls|
  {
    if polls == [] then scheduled
    else Polled(AfterPolls(scheduled, polls[..|polls| - 1]), polls[|polls| - 1])
  }

  // The deadlines profile i had when it was served, in order.
  function Served(scheduled: seq<Scheduled>, polls: seq<U64>, i: nat): seq<U64>
    requires i < |scheduled|
    decreases |polls|
  {
    if polls == [] then []
    else
      var n := |polls| - 1;
      var before := AfterPolls(scheduled, polls[..n]);
      Served(scheduled, polls[..n], i) + if i in Due(before, polls[n]) then [before[i].next] else []
  }

  lemma CellBounds(start: nat, step: nat, now: nat)
    requires start <= now && step >= 1
    ensures var cell := Cell(start, step, now);
            Slot(start, step, cell) <= now < Slot(start, step, cell + 1)
  {
  }

  lemma SlotsAscend(start: nat, step: nat, j: nat, k: nat)
    requires step >= 1
    ensures j <= k <==> Slot(start, step, j) <= Slot(start, step, k)
  {
    if j <= k {
      MultiplesAscend(j, k, step);
    } else {
      MultiplesAscend(k + 1, j, step);
      assert (k + 1) * step == k * step + step;
    }
  }

  // A slot has come by now exactly when it is no later than the slot of now's own interval.
  lemma SlotHasComeIff(start: nat, step: nat, k: nat, now: nat)
    requires start <= now && step >= 1
    ensures Slot(start, step, k) <= now <==> k <= Cell(start, step, now)
  {
    hide Slot, Cell;
    var cell := Cell(start, step, now);
    CellBounds(start, step, now);
    SlotsAscend(start, step, k, cell);
    SlotsAscend(start, step, cell + 1, k);
  }

  // A deadline on the grid that has come moves to the first slot after now.
  lemma ClosedFormIsNextSlot(start: U64, interval: U64, k: nat, now: U64)
    requires start <= now && Slot(start, AtLeastOne(interval), k) <= now
    ensures var step := AtLeastOne(interval);
            ClosedForm(Slot(start, step, k), interval, now) == Capped(Slot(start, step, Cell(start, step, now) + 1))
  {
    var step := AtLeastOne(interval);
    var cell, n := Cell(start, step, now), Slots(Slot(start, step, k), step, now);
    SlotAfter(start, step, k, n);
    SlotHasComeIff(start, step, k + n, now);
    SlotHasComeIff(start, step, k, now);
    if n > cell + 1 - k {
      SlotAfter(start, step, k, cell + 1 - k);
      SlotHasComeIff(start, step, cell + 1, now);
      assert false;
    }
  }

  lemma SlotAfter(start: nat, step: nat, k: nat, n: nat)
    ensures Slot(start, step, k + n) == Slot(start, step, k) + n * step
  {
    assert (k + n) * step == k * step + n * step;
  }

  lemma CellsAscend(start: nat, step: nat, a: nat, b: nat)
    requires start <= a <= b && step >= 1
    ensures Cell(start, step, a) <= Cell(start, step, b)
  {
    CellBounds(start, step, a);
    SlotHasComeIff(start, step, Cell(start, step, a), b);
  }

  // The slot profile i waits for: the start before any poll, then the first slot after the last poll.
  function AwaitedSlot(start: U64, step: nat, polls: seq<U64>): nat
    requires PollTimes(start, polls) && step >= 1
  {
    if polls == [] then 0 else Cell(start, step, polls[|polls| - 1]) + 1
  }

  lemma {:induction false} DeadlineIsAwaitedSlot(profiles: seq<Profile>, start: U64, polls: seq<U64>, i: nat)
    requires i < |Started(profiles, start)| && PollTimes(start, polls)
    ensures var scheduled := Started(profiles, start);
            var step := AtLeastOne(scheduled[i].profile.interval);
            && AfterPolls(scheduled, polls)[i].profile == scheduled[i].profile
            && AfterPolls(scheduled, polls)[i].next == Capped(Slot(start, step, AwaitedSlot(start, step, polls)))
    decreases |polls|
  {
    hide ClosedForm, Cell, Slot;
    var scheduled := Started(profiles, start);
    var interval := scheduled[i].profile.interval;
    var step := AtLeastOne(interval);
    if polls == [] {
      assert scheduled[i] in scheduled;
      assert Slot(start, step, 0) == start by { SlotZero(start, step); }
    } else {
      var n := |polls| - 1;
      var k, now := AwaitedSlot(start, step, polls[..n]), polls[n];
      DeadlineIsAwaitedSlot(profiles, start, polls[..n], i);
      SlotHasComeIff(start, step, k, now);
      if Slot(start, step, k) <= now {
        ClosedFormIsNextSlot(start, interval, k, now);
      } else {
        AwaitedOnlyGrows(start, step, polls);
      }
    }
  }

  // Whatever polls came before, the deadline of a profile is a slot of its own grid, start + k *
  // interval: the start before any poll, then the first slot after the last poll, capped. An interval
  // of 0 counts as 1.
  lemma DeadlineFollowsTheGrid(profiles: seq<Profile>, start: U64, polls: seq<U64>, i: nat)
    requires i < |Started(profiles, start)| && PollTimes(start, polls)
    ensures var scheduled := Started(profiles, start);
            var interval, after := scheduled[i].profile.interval, AfterPolls(scheduled, polls)[i];
            var step := if interval == 0 then 1 else interval;
            var slot := if polls == [] then start else start + ((polls[|polls| - 1] - start) / step + 1) * step;
            && after.profile == scheduled[i].profile
            && after.next == if slot <= 0xFFFF_FFFF_FFFF_FFFF then slot else 0xFFFF_FFFF_FFFF_FFFF
  {
    hide AfterPolls, Started;
    DeadlineIsAwaitedSlot(profiles, start, polls, i);
  }

  lemma SlotZero(start: nat, step: nat)
    ensures Slot(start, step, 0) == start
  {
  }

  lemma AwaitedOnlyGrows(start: U64, step: nat, polls: seq<U64>)
    requires PollTimes(start, polls) && polls != [] && step >= 1
    ensures AwaitedSlot(start, step, polls[..|polls| - 1]) <= AwaitedSlot(start, step, polls)
  {
    hide Cell;
    var n := |polls| - 1;
    if n > 0 {
      assert polls[n - 1] <= polls[n];
      CellsAscend(start, step, polls[n - 1], polls[n]);
    }
  }

  lemma NextSlotIsWithinOneInterval(start: U64, step: nat, now: U64)
    requires start <= now < U64_MAX && step >= 1
    ensures now < Capped(Slot(start, step, Cell(start, step, now) + 1)) <= now + step
  {
    hide Cell, Slot;
    CellBounds(start, step, now);
    SlotAfter(start, step, Cell(start, step, now), 1);
  }

  // After each poll every deadline lies in (now, now + interval], for the profile's own interval.
  lemma DeadlineAfterAPoll(profiles: seq<Profile>, start: U64, polls: seq<U64>, i: nat)
    requires i < |Started(profiles, start)| && PollTimes(start, polls) && polls != []
    ensures var now, after := polls[|polls| - 1], AfterPolls(Started(profiles, start), polls)[i];
            now < after.next <= now + if after.profile.interval == 0 then 1 else after.profile.interval
  {
    hide Cell, Slot, AfterPolls, Capped, Started;
    var step := AtLeastOne(Started(profiles, start)[i].profile.interval);
    DeadlineIsAwaitedSlot(profiles, start, polls, i);
    NextSlotIsWithinOneInterval(start, step, polls[|polls| - 1]);
  }

  // After each poll nothing is due.
  lemma NothingIsDueAfterAPoll(profiles: seq<Profile>, start: U64, polls: seq<U64>)
    requires PollTimes(start, polls) && polls != []
    ensures Due(AfterPolls(Started(profiles, start), polls), polls[|polls| - 1]) == []
  {
    hide AfterPolls;
    var after, now := AfterPolls(Started(profiles, start), polls), polls[|polls| - 1];
    var due := Due(after, now);
    if due != [] {
      assert due[0] in due;
      DeadlineAfterAPoll(profiles, start, polls, due[0]);
      assert false;
    }
  }

  // A poll serves a profile exactly when it is the first poll in its interval since the start.
  lemma ServedOncePerInterval(profiles: seq<Profile>, start: U64, polls: seq<U64>, i: nat)
    requires i < |Started(profiles, start)| && PollTimes(start, polls) && polls != []
    ensures var scheduled, n := Started(profiles, start), |polls| - 1;
            var interval := scheduled[i].profile.interval;
            var step := if interval == 0 then 1 else interval;
            i in Due(AfterPolls(scheduled, polls[..n]), polls[n])
            <==> n == 0 || (polls[n - 1] - start) / step < (polls[n] - start) / step
  {
    hide Slot, AfterPolls, Started;
    var n := |polls| - 1;
    var step := AtLeastOne(Started(profiles, start)[i].profile.interval);
    DeadlineIsAwaitedSlot(profiles, start, polls[..n], i);
    SlotHasComeIff(start, step, AwaitedSlot(start, step, polls[..n]), polls[n]);
  }

  // One of the first `count` slots of the grid.
  ghost predicate IsSlot(start: nat, step: nat, deadline: nat, count: nat) {
    exists k: nat :: k < count && deadline == Slot(start, step, k)
  }

  lemma {:induction false} SlotsAreServedInOrder(profiles: seq<Profile>, start: U64, polls: seq<U64>, i: nat)
    requires i < |Started(profiles, start)| && PollTimes(start, polls)
    ensures var scheduled := Started(profiles, start);
            var step, served := AtLeastOne(scheduled[i].profile.interval), Served(scheduled, polls, i);
            && |served| <= AwaitedSlot(start, step, polls)
            && (forall a, b | 0 <= a < b < |served| :: served[a] < served[b])
            && (forall a | 0 <= a < |served| :: IsSlot(start, step, served[a], AwaitedSlot(start, step, polls)))
    decreases |polls|
  {
    hide Cell, Slot, AfterPolls, Started, AtLeastOne;
    var scheduled := Started(profiles, start);
    var step := AtLeastOne(scheduled[i].profile.interval);
    if polls == [] {
    } else {
      var n := |polls| - 1;
      var earlier, k := Served(scheduled, polls[..n], i), AwaitedSlot(start, step, polls[..n]);
      SlotsAreServedInOrder(profiles, start, polls[..n], i);
      DeadlineIsAwaitedSlot(profiles, start, polls[..n], i);
      SlotHasComeIff(start, step, k, polls[n]);
      AwaitedOnlyGrows(start, step, polls);
      forall a | 0 <= a < |earlier| ensures earlier[a] < Slot(start, step, k) {
        var j: nat :| j < k && earlier[a] == Slot(start, step, j);
        SlotsAscend(start, step, k, j);
      }
      var served, awaited := Served(scheduled, polls, i), AwaitedSlot(start, step, polls);
      forall a | 0 <= a < |served| ensures IsSlot(start, step, served[a], awaited) {
        if a < |earlier| {
          var j: nat :| j < k && earlier[a] == Slot(start, step, j);
          assert j < awaited;
        } else {
          assert k < awaited && served[a] == Slot(start, step, k);
        }
      }
    }
  }

  // Served deadlines are slots of the profile's grid in ascending order, so no slot is served twice; a
  // profile emits at most floor((now - start) / interval) + 1 bundles.
  lemma SlotsAreServedAtMostOnce(profiles: seq<Profile>, start: U64, polls: seq<U64>, i: nat)
    requires i < |Started(profiles, start)| && PollTimes(start, polls)
    ensures var scheduled := Started(profiles, start);
            var interval, served := scheduled[i].profile.interval, Served(scheduled, polls, i);
            var step := if interval == 0 then 1 else interval;
            var count := if polls == [] then 0 else (polls[|polls| - 1] - start) / step + 1;
            && |served| <= count
            && (forall a, b | 0 <= a < b < |served| :: served[a] < served[b])
            && (forall a | 0 <= a < |served| :: IsSlot(start, step, served[a], count))
  {
    hide Started, Served, IsSlot;
    SlotsAreServedInOrder(profiles, start, polls, i);
  }
}
