// Device tags of src/tags_store.rs: the device_tags table and the cache that indexes it both ways.
module Tags {
  import opened Wrappers

  type TagId = nat

  datatype DeviceTag = DeviceTag(device: string, tag: TagId, assignedAt: int, assignedBy: Option<string>)

  // The row filters of the SQL statements and of the cache.
  datatype Selector =
    | Device(device: string)
    | Tag(tag: TagId)
    | NotPair(device: string, tag: TagId)
    | NotDevice(device: string)
    | NotTag(tag: TagId)
    | Outside(devices: set<string>)
    | Both(first: Selector, second: Selector)
  {
    predicate Keeps(row: DeviceTag) {
      match this
      case Device(d) => row.device == d
      case Tag(t) => row.tag == t
      case NotPair(d, t) => row.device != d || row.tag != t
      case NotDevice(d) => row.device != d
      case NotTag(t) => row.tag != t
      case Outside(devices) => row.device !in devices
      case Both(first, second) => first.Keeps(row) && second.Keeps(row)
    }
  }

  function Select(rows: seq<DeviceTag>, sel: Selector): (kept: seq<DeviceTag>)
    ensures forall k | 0 <= k < |kept| :: sel.Keeps(kept[k])
    ensures |kept| <= |rows|
  {
    if rows == [] then []
    else
      var last := rows[|rows| - 1];
      Select(rows[..|rows| - 1], sel) + if sel.Keeps(last) then [last] else []
  }

  lemma {:induction false} SelectCounts(rows: seq<DeviceTag>, sel: Selector, x: DeviceTag)
    ensures multiset(Select(rows, sel))[x] == if sel.Keeps(x) then multiset(rows)[x] else 0
  {
    if rows == [] {
    } else {
      var init, last := rows[..|rows| - 1], rows[|rows| - 1];
      SelectCounts(init, sel, x);
      assert rows == init + [last];
      assert Select(rows, sel) == Select(init, sel) + if sel.Keeps(last) then [last] else [];
    }
  }

  lemma SelectTwiceSnoc(rows: seq<DeviceTag>, row: DeviceTag, a: Selector, b: Selector)
    ensures Select(Select(rows + [row], a), b)
         == Select(Select(rows, a), b) + if a.Keeps(row) && b.Keeps(row) then [row] else []
  {
    hide Select, Selector.Keeps;
    SelectSnoc(rows, row, a);
    if a.Keeps(row) {
      SelectSnoc(Select(rows, a), row, b);
    } else {
      assert Select(rows, a) + [] == Select(rows, a);
      assert Select(Select(rows, a), b) + [] == Select(Select(rows, a), b);
    }
  }

  lemma {:induction false} SelectsCommute(rows: seq<DeviceTag>, a: Selector, b: Selector)
    ensures Select(Select(rows, a), b) == Select(Select(rows, b), a)
  {
    if rows == [] {
    } else {
      hide Select, Selector.Keeps;
      var init, last := rows[..|rows| - 1], rows[|rows| - 1];
      SelectsCommute(init, a, b);
      assert rows == init + [last];
      SelectTwiceSnoc(init, last, a, b);
      SelectTwiceSnoc(init, last, b, a);
    }
  }

  lemma SelectSnoc(rows: seq<DeviceTag>, row: DeviceTag, sel: Selector)
    ensures Select(rows + [row], sel) == Select(rows, sel) + if sel.Keeps(row) then [row] else []
  {
    assert (rows + [row])[..|rows|] == rows;
  }

  lemma {:induction false} SelectKeepsAll(rows: seq<DeviceTag>, sel: Selector)
    ensures Select(rows, sel) == rows <==> forall k | 0 <= k < |rows| :: sel.Keeps(rows[k])
  {
    if rows == [] {
    } else {
      var init := rows[..|rows| - 1];
      SelectKeepsAll(init, sel);
      assert rows == init + [rows[|rows| - 1]];
    }
  }

  lemma {:induction false} SelectNothing(rows: seq<DeviceTag>, a: Selector, b: Selector)
    requires forall row :: !(a.Keeps(row) && b.Keeps(row))
    ensures Select(Select(rows, a), b) == []
  {
    if rows == [] {
    } else {
      hide Select, Selector.Keeps;
      var init, last := rows[..|rows| - 1], rows[|rows| - 1];
      SelectNothing(init, a, b);
      assert rows == init + [last];
      SelectTwiceSnoc(init, last, a, b);
    }
  }

  lemma SelectTwice(rows: seq<DeviceTag>, sel: Selector)
    ensures Select(Select(rows, sel), sel) == Select(rows, sel)
  {
    SelectKeepsAll(Select(rows, sel), sel);
  }

  // ------------------------------------------------------------------ the cache

  datatype Cache = Cache(byDevice: map<string, seq<DeviceTag>>, byTag: map<TagId, seq<DeviceTag>>)

  const EMPTY := Cache(map[], map[])

  function Inserted(c: Cache, row: DeviceTag): Cache {
    Cache(c.byDevice[row.device := ListAt(c.byDevice, row.device) + [row]],
          c.byTag[row.tag := ListAt(c.byTag, row.tag) + [row]])
  }

  function PositionOf(list: seq<DeviceTag>, tag: TagId): (position: Option<nat>)
    ensures position.Some? ==> position.value < |list| && list[position.value].tag == tag
    ensures position.Some? ==> forall k | 0 <= k < position.value :: list[k].tag != tag
    ensures position.None? ==> forall k | 0 <= k < |list| :: list[k].tag != tag
  {
    if list == [] then None
    else if list[0].tag == tag then Some(0)
    else
      var rest := PositionOf(list[1..], tag);
      if rest.Some? then Some(rest.value + 1) else None
  }

  // Only the first entry goes from the device list, every such entry goes from the tag list.
  function Removed(c: Cache, device: string, tag: TagId): (Cache, Option<DeviceTag>) {
    var list := ListAt(c.byDevice, device);
    var position := PositionOf(list, tag);
    if position.None? then (c, None)
    else
      var k := position.value;
      (Cache(c.byDevice[device := list[..k] + list[k + 1..]],
             if tag in c.byTag then c.byTag[tag := Select(c.byTag[tag], NotPair(device, tag))] else c.byTag),
       Some(list[k]))
  }

  function Retained(byTag: map<TagId, seq<DeviceTag>>, removed: seq<DeviceTag>, device: string)
    : map<TagId, seq<DeviceTag>>
    decreases |removed|
  {
    if removed == [] then byTag
    else
      var m := Retained(byTag, removed[..|removed| - 1], device);
      var tag := removed[|removed| - 1].tag;
      if tag in m then m[tag := Select(m[tag], NotDevice(device))] else m
  }

  function RemovedByDevice(c: Cache, device: string): Cache {
    Cache(c.byDevice - {device}, Retained(c.byTag, ListAt(c.byDevice, device), device))
  }

  function Loaded(rows: seq<DeviceTag>): Cache {
    if rows == [] then EMPTY else Inserted(Loaded(rows[..|rows| - 1]), rows[|rows| - 1])
  }

  class DeviceTagCache {
    var byDevice: map<string, seq<DeviceTag>>
    var byTag: map<TagId, seq<DeviceTag>>

    constructor ()
      ensures View() == EMPTY
    {
      byDevice := map[];
      byTag := map[];
    }

    function View(): Cache
      reads this
    {
      Cache(byDevice, byTag)
    }

    method Insert(row: DeviceTag)
      modifies this
      ensures View() == Inserted(old(View()), row)
    {
      byDevice := byDevice[row.device := ListAt(byDevice, row.device) + [row]];
      byTag := byTag[row.tag := ListAt(byTag, row.tag) + [row]];
    }

    method Remove(device: string, tag: TagId) returns (removed: Option<DeviceTag>)
      modifies this
      ensures (View(), removed) == Removed(old(View()), device, tag)
    {
      removed := None;
      if device in byDevice {
        var list := byDevice[device];
        var position := Position(list, tag);
        if position.Some? {
          var k := position.value;
          removed := Some(list[k]);
          byDevice := byDevice[device := list[..k] + list[k + 1..]];
        }
      }
      if removed.Some? && removed.value.tag in byTag {
        var kept := Retain(byTag[removed.value.tag], NotPair(device, tag));
        byTag := byTag[removed.value.tag := kept];
      }
    }

    method RemoveByDevice(device: string) returns (removed: seq<DeviceTag>)
      modifies this
      ensures View() == RemovedByDevice(old(View()), device)
      ensures removed == ListAt(old(byDevice), device)
    {
      removed := ListAt(byDevice, device);
      byDevice := byDevice - {device};
      for n := 0 to |removed|
        invariant byDevice == old(byDevice) - {device}
        invariant byTag == Retained(old(byTag), removed[..n], device)
      {
        assert removed[..n + 1][..n] == removed[..n];
        if removed[n].tag in byTag {
          var kept := Retain(byTag[removed[n].tag], NotDevice(device));
          byTag := byTag[removed[n].tag := kept];
        }
      }
      assert removed[..|removed|] == removed;
    }
  }

  method Position(list: seq<DeviceTag>, tag: TagId) returns (position: Option<nat>)
    ensures position == PositionOf(list, tag)
  {
    var k := 0;
    while k < |list|
      invariant 0 <= k <= |list|
      invariant PositionOf(list, tag) == (var rest := PositionOf(list[k..], tag);
                                          if rest.Some? then Some(rest.value + k) else None)
    {
      if list[k].tag == tag {
        return Some(k);
      }
      assert list[k..][1..] == list[k + 1..];
      k := k + 1;
    }
    return None;
  }

  method Retain(list: seq<DeviceTag>, sel: Selector) returns (kept: seq<DeviceTag>)
    ensures kept == Select(list, sel)
  {
    kept := [];
    for n := 0 to |list|
      invariant kept == Select(list[..n], sel)
    {
      assert list[..n + 1] == list[..n] + [list[n]];
      SelectSnoc(list[..n], list[n], sel);
      if sel.Keeps(list[n]) {
        kept := kept + [list[n]];
      }
    }
    assert list[..|list|] == list;
  }

  // ------------------------------------------------------------------ the store

  // What INSERT OR REPLACE does under UNIQUE(device_id, tag_id).
  function Replaced(rows: seq<DeviceTag>, row: DeviceTag): seq<DeviceTag> {
    Select(rows, NotPair(row.device, row.tag)) + [row]
  }

  // The row is there once, no other row of its pair is, and every other row stays.
  lemma ReplacedHolds(rows: seq<DeviceTag>, row: DeviceTag, x: DeviceTag)
    ensures multiset(Replaced(rows, row))[x]
         == if x == row then 1 else if x.device == row.device && x.tag == row.tag then 0 else multiset(rows)[x]
  {
    SelectCounts(rows, NotPair(row.device, row.tag), x);
  }

  function Has(rows: seq<DeviceTag>, device: string, tag: TagId): (has: bool)
    ensures has <==> exists k :: 0 <= k < |rows| && rows[k].device == device && rows[k].tag == tag
  {
    rows != [] && ((rows[0].device == device && rows[0].tag == tag)
                   || var rest := Has(rows[1..], device, tag);
                      assert forall k | 0 <= k < |rows| - 1 :: rows[1..][k] == rows[k + 1];
                      assert forall k | 0 < k < |rows| :: rows[k] == rows[1..][k - 1];
                      rest)
  }

  class TagStore {
    const cache: DeviceTagCache
    var tags: set<TagId>          // the ids in the tags table
    var rows: seq<DeviceTag>      // the device_tags table, oldest row first

    // Opening a database with these rows, which the query lists in some order.
    constructor (tags: set<TagId>, rows: seq<DeviceTag>, listed: seq<DeviceTag>)
      requires multiset(listed) == multiset(rows)
      ensures fresh(cache)
      ensures this.tags == tags && this.rows == rows && cache.View() == Loaded(listed)
    {
      cache := new DeviceTagCache();
      this.tags := tags;
      this.rows := rows;
      new;
      for n := 0 to |listed|
        modifies cache
        invariant cache.View() == Loaded(listed[..n])
      {
        assert listed[..n + 1][..n] == listed[..n];
        cache.Insert(listed[n]);
      }
      assert listed[..|listed|] == listed;
    }

    method AssignTag(row: DeviceTag)
      modifies this, cache
      ensures tags == old(tags) && rows == Replaced(old(rows), row)
      ensures cache.View() == Inserted(old(cache.View()), row)
    {
      var others := Retain(rows, NotPair(row.device, row.tag));
      rows := others + [row];
      cache.Insert(row);
    }

    method RemoveTagFromDevice(device: string, tag: TagId) returns (removed: Option<DeviceTag>)
      modifies this, cache
      ensures tags == old(tags) && rows == Select(old(rows), NotPair(device, tag))
      ensures (cache.View(), removed)
           == if Has(old(rows), device, tag) then Removed(old(cache.View()), device, tag) else (old(cache.View()), None)
    {
      var affected := Has(rows, device, tag);
      rows := Retain(rows, NotPair(device, tag));
      if affected {
        removed := cache.Remove(device, tag);
      } else {
        removed := None;
      }
    }

    method RemoveAllTagsFromDevice(device: string) returns (removed: seq<DeviceTag>)
      modifies this, cache
      ensures tags == old(tags) && rows == Select(old(rows), NotDevice(device))
      ensures cache.View() == RemovedByDevice(old(cache.View()), device)
      ensures removed == ListAt(old(cache.View()).byDevice, device)
    {
      rows := Retain(rows, NotDevice(device));
      removed := cache.RemoveByDevice(device);
    }

    method DeleteTag(tag: TagId) returns (deleted: bool)
      modifies this
      ensures deleted == (tag in old(tags)) && tags == old(tags) - {tag}
      ensures rows == RowsAfterDelete(old(rows), old(tags), tag)
    {
      deleted := tag in tags;
      tags := tags - {tag};
      if deleted {
        rows := Retain(rows, NotTag(tag));
      }
    }
  }

  function RowsAfterDelete(rows: seq<DeviceTag>, tags: set<TagId>, tag: TagId): seq<DeviceTag> {
    if tag in tags then Select(rows, NotTag(tag)) else rows
  }

  // ---------------------------------------------------------- agreement with the table

  // The UNIQUE(device_id, tag_id) constraint.
  ghost predicate Unique(rows: seq<DeviceTag>) {
    forall i, j | 0 <= i < j < |rows| :: rows[i].device != rows[j].device || rows[i].tag != rows[j].tag
  }

  // Each index lists exactly the table's rows for its key, in the table's order.
  ghost predicate Agrees(c: Cache, rows: seq<DeviceTag>) {
    && (forall d :: ListAt(c.byDevice, d) == Select(rows, Device(d)))
    && (forall t :: ListAt(c.byTag, t) == Select(rows, Tag(t)))
  }

  // So the two indexes hold the same assignments: each is the other's transpose.
  lemma AgreementMakesTransposes(c: Cache, rows: seq<DeviceTag>, row: DeviceTag)
    requires Agrees(c, rows)
    ensures multiset(ListAt(c.byDevice, row.device))[row] == multiset(rows)[row]
    ensures multiset(ListAt(c.byTag, row.tag))[row] == multiset(rows)[row]
  {
    SelectCounts(rows, Device(row.device), row);
    SelectCounts(rows, Tag(row.tag), row);
  }

  lemma UniqueSnoc(rows: seq<DeviceTag>, row: DeviceTag)
    ensures Unique(rows + [row])
       <==> Unique(rows) && forall k | 0 <= k < |rows| :: rows[k].device != row.device || rows[k].tag != row.tag
  {
    var all := rows + [row];
    assert forall k | 0 <= k < |rows| :: all[k] == rows[k];
    assert all[|rows|] == row;
  }

  lemma {:induction false} SelectKeepsUnique(rows: seq<DeviceTag>, sel: Selector)
    requires Unique(rows)
    ensures Unique(Select(rows, sel))
  {
    if rows == [] {
    } else {
      hide Select, Unique, Selector.Keeps;
      var init, last := rows[..|rows| - 1], rows[|rows| - 1];
      assert rows == init + [last];
      UniqueSnoc(init, last);
      SelectKeepsUnique(init, sel);
      var kept := Select(init, sel);
      forall k | 0 <= k < |kept| ensures kept[k].device != last.device || kept[k].tag != last.tag {
        SelectCounts(init, sel, kept[k]);
        assert kept[k] in multiset(kept);
      }
      UniqueSnoc(kept, last);
      SelectSnoc(init, last, sel);
      assert kept + [] == kept;
    }
  }

  lemma ReplacedKeepsUnique(rows: seq<DeviceTag>, row: DeviceTag)
    requires Unique(rows)
    ensures Unique(Replaced(rows, row))
  {
    SelectKeepsUnique(rows, NotPair(row.device, row.tag));
  }

  // Loading any list of rows gives a cache that agrees with it.
  lemma {:induction false} LoadedAgrees(rows: seq<DeviceTag>)
    ensures Agrees(Loaded(rows), rows)
  {
    if rows == [] {
    } else {
      LoadedAgrees(rows[..|rows| - 1]);
      InsertedAgrees(Loaded(rows[..|rows| - 1]), rows[..|rows| - 1], rows[|rows| - 1]);
      assert rows == rows[..|rows| - 1] + [rows[|rows| - 1]];
    }
  }

  lemma InsertedAgrees(c: Cache, rows: seq<DeviceTag>, row: DeviceTag)
    requires Agrees(c, rows)
    ensures Agrees(Inserted(c, row), rows + [row])
  {
    forall d ensures ListAt(Inserted(c, row).byDevice, d) == Select(rows + [row], Device(d)) {
      SelectSnoc(rows, row, Device(d));
    }
    forall t ensures ListAt(Inserted(c, row).byTag, t) == Select(rows + [row], Tag(t)) {
      SelectSnoc(rows, row, Tag(t));
    }
  }

  lemma {:induction false} SelectIsShorter(rows: seq<DeviceTag>, sel: Selector, x: DeviceTag)
    requires x in rows && !sel.Keeps(x)
    ensures |Select(rows, sel)| < |rows|
  {
    if rows[|rows| - 1] == x {
    } else {
      assert rows == rows[..|rows| - 1] + [rows[|rows| - 1]];
      SelectIsShorter(rows[..|rows| - 1], sel, x);
    }
  }

  lemma SelectDropsOne(list: seq<DeviceTag>, sel: Selector, k: nat)
    requires k < |list|
    requires forall i | 0 <= i < |list| :: sel.Keeps(list[i]) <==> i != k
    ensures Select(list, sel) == list[..k] + list[k + 1..]
  {
    hide Select;
    SelectKeepsAll(list[..k], sel);
    SelectKeepsAll(list[k + 1..], sel);
    SelectSnoc(list[..k], list[k], sel);
    SelectConcat(list[..k] + [list[k]], list[k + 1..], sel);
    assert list == list[..k] + [list[k]] + list[k + 1..];
  }

  // Dropping the first entry for a tag is dropping all of them, when there is at most one.
  lemma DropFirstIsDropAll(list: seq<DeviceTag>, device: string, tag: TagId, k: nat)
    requires Unique(list) && k < |list| && list[k].tag == tag
    requires forall i | 0 <= i < |list| :: list[i].device == device
    ensures Select(list, NotPair(device, tag)) == list[..k] + list[k + 1..]
  {
    hide Select;
    SelectDropsOne(list, NotPair(device, tag), k);
  }

  lemma {:induction false} SelectConcat(a: seq<DeviceTag>, b: seq<DeviceTag>, sel: Selector)
    ensures Select(a + b, sel) == Select(a, sel) + Select(b, sel)
  {
    if b == [] {
      assert a + b == a;
    } else {
      var init, last := b[..|b| - 1], b[|b| - 1];
      SelectConcat(a, init, sel);
      SelectSnoc(a + init, last, sel);
      assert a + b == a + init + [last];
    }
  }

  lemma {:induction false} RetainedIs(
    byTag: map<TagId, seq<DeviceTag>>, removed: seq<DeviceTag>, device: string, t: TagId)
    ensures ListAt(Retained(byTag, removed, device), t)
         == if exists k :: 0 <= k < |removed| && removed[k].tag == t then Select(ListAt(byTag, t), NotDevice(device))
            else ListAt(byTag, t)
    decreases |removed|
  {
    hide Select;
    if removed == [] {
    } else {
      var init := removed[..|removed| - 1];
      RetainedIs(byTag, init, device, t);
      SelectTwice(ListAt(byTag, t), NotDevice(device));
      assert forall k | 0 <= k < |init| :: init[k] == removed[k];
    }
  }

  lemma DeviceIndexAfterRemoveByDevice(c: Cache, rows: seq<DeviceTag>, device: string, d: string)
    requires Agrees(c, rows)
    ensures ListAt(RemovedByDevice(c, device).byDevice, d) == Select(Select(rows, NotDevice(device)), Device(d))
  {
    hide Select, Retained;
    var sel := NotDevice(device);
    SelectsCommute(rows, sel, Device(d));
    SelectKeepsAll(Select(rows, Device(d)), sel);
    if d == device {
      SelectNothing(rows, sel, Device(d));
    }
  }

  lemma TagIndexAfterRemoveByDevice(c: Cache, rows: seq<DeviceTag>, device: string, t: TagId)
    requires Agrees(c, rows)
    ensures ListAt(RemovedByDevice(c, device).byTag, t) == Select(Select(rows, NotDevice(device)), Tag(t))
  {
    hide Select, Retained;
    var sel, removed, list := NotDevice(device), ListAt(c.byDevice, device), Select(rows, Tag(t));
    RetainedIs(c.byTag, removed, device, t);
    SelectsCommute(rows, sel, Tag(t));
    SelectKeepsAll(list, sel);
    forall k | 0 <= k < |list| && list[k].device == device
      ensures exists j :: 0 <= j < |removed| && removed[j].tag == t
    {
      SelectCounts(rows, Tag(t), list[k]);
      SelectCounts(rows, Device(device), list[k]);
      assert list[k] in multiset(list);
      assert list[k] in removed;
    }
  }

  lemma RemoveByDeviceKeepsAgreement(c: Cache, rows: seq<DeviceTag>, device: string)
    requires Agrees(c, rows)
    ensures Agrees(RemovedByDevice(c, device), Select(rows, NotDevice(device)))
  {
    hide Select, Retained, RemovedByDevice;
    forall d
      ensures ListAt(RemovedByDevice(c, device).byDevice, d) == Select(Select(rows, NotDevice(device)), Device(d))
    {
      DeviceIndexAfterRemoveByDevice(c, rows, device, d);
    }
    forall t ensures ListAt(RemovedByDevice(c, device).byTag, t) == Select(Select(rows, NotDevice(device)), Tag(t)) {
      TagIndexAfterRemoveByDevice(c, rows, device, t);
    }
  }

  // delete_tag leaves the cache alone, so it keeps agreement exactly when nothing was assigned to the
  // tag it deletes (or there was no such tag).
  lemma DeleteKeepsAgreementIff(c: Cache, rows: seq<DeviceTag>, tags: set<TagId>, tag: TagId)
    requires Agrees(c, rows)
    ensures Agrees(c, RowsAfterDelete(rows, tags, tag)) <==> tag !in tags || ListAt(c.byTag, tag) == []
  {
    SelectKeepsAll(rows, NotTag(tag));
    if tag in tags {
      if ListAt(c.byTag, tag) == [] {
        forall k | 0 <= k < |rows| ensures NotTag(tag).Keeps(rows[k]) {
          SelectCounts(rows, Tag(tag), rows[k]);
        }
      } else {
        SelectNothing(rows, NotTag(tag), Tag(tag));
      }
    }
  }

  // Assigning a pair again and then removing it leaves an entry in the device index for a row that is
  // neither in the table nor in the tag index.
  lemma ReassignedPairOutlivesItsRemoval(c: Cache, rows: seq<DeviceTag>, row: DeviceTag)
    requires Agrees(c, rows) && Has(rows, row.device, row.tag)
    ensures var rows1, c1 := Replaced(rows, row), Inserted(c, row);
            var rows2, c2 := Select(rows1, NotPair(row.device, row.tag)), Removed(c1, row.device, row.tag).0;
            && Has(rows1, row.device, row.tag)
            && row in ListAt(c2.byDevice, row.device)
            && !Has(rows2, row.device, row.tag) && row !in ListAt(c2.byTag, row.tag)
  {
    hide Select, Agrees;
    var rows1 := Replaced(rows, row);
    assert rows1[|rows1| - 1] == row;
    var list := ListAt(c.byDevice, row.device);
    AssignedIsListed(c, rows, row.device, row.tag);
    DropFirstKeepsLast(list, row);
  }

  lemma AssignedIsListed(c: Cache, rows: seq<DeviceTag>, device: string, tag: TagId)
    requires Agrees(c, rows) && Has(rows, device, tag)
    ensures exists k :: 0 <= k < |ListAt(c.byDevice, device)| && ListAt(c.byDevice, device)[k].tag == tag
  {
    hide Select;
    var x :| 0 <= x < |rows| && rows[x].device == device && rows[x].tag == tag;
    SelectCounts(rows, Device(device), rows[x]);
    assert rows[x] in ListAt(c.byDevice, device);
  }

  lemma DropFirstKeepsLast(list: seq<DeviceTag>, row: DeviceTag)
    requires exists k :: 0 <= k < |list| && list[k].tag == row.tag
    ensures PositionOf(list + [row], row.tag).Some?
    ensures var longer, k := list + [row], PositionOf(list + [row], row.tag).value;
            row in longer[..k] + longer[k + 1..]
  {
    var longer := list + [row];
    var j :| 0 <= j < |list| && list[j].tag == row.tag;
    hide PositionOf;
    assert longer[j].tag == row.tag;
    PositionIsFirst(longer, row.tag);
    var k := PositionOf(longer, row.tag).value;
    assert longer[k + 1..][|longer| - k - 2] == row;
  }

  lemma {:induction false} PositionIsFirst(list: seq<DeviceTag>, tag: TagId)
    ensures forall k | 0 <= k < |list| && list[k].tag == tag ::
      PositionOf(list, tag).Some? && PositionOf(list, tag).value <= k
  {
    if list == [] || list[0].tag == tag {
    } else {
      PositionIsFirst(list[1..], tag);
      assert forall k | 1 <= k < |list| :: list[k] == list[1..][k - 1];
    }
  }

  // ------------------------------------------------------------------ runs

  datatype Op =
    | Assign(row: DeviceTag)
    | Unassign(device: string, tag: TagId)
    | UnassignDevice(device: string)
    | CreateTag(tag: TagId)
    | DeleteTag(tag: TagId)

  datatype State = State(cache: Cache, rows: seq<DeviceTag>, tags: set<TagId>)

  function Next(s: State, op: Op): State {
    match op
    case Assign(row) => s.(cache := Inserted(s.cache, row), rows := Replaced(s.rows, row))
    case Unassign(d, t) =>
      s.(cache := if Has(s.rows, d, t) then Removed(s.cache, d, t).0 else s.cache,
         rows := Select(s.rows, NotPair(d, t)))
    case UnassignDevice(d) => s.(cache := RemovedByDevice(s.cache, d), rows := Select(s.rows, NotDevice(d)))
    case CreateTag(t) => s.(tags := s.tags + {t})
    case DeleteTag(t) => s.(rows := RowsAfterDelete(s.rows, s.tags, t), tags := s.tags - {t})
  }

  function Run(s: State, ops: seq<Op>): State
    decreases |ops|
  {
    if ops == [] then s else Run(Next(s, ops[0]), ops[1..])
  }

  // ------------------------------------------------------------ damaged devices

  function DevicesWith(rows: seq<DeviceTag>, tag: TagId): set<string> {
    set k | 0 <= k < |rows| && rows[k].tag == tag :: rows[k].device
  }

  // The devices whose entries part from the table: a device joins them when one of its pairs is
  // assigned again or a tag it carries is deleted, and leaves them when all its tags are removed.
  // The table alone decides.
  function Damaged(s: State, damaged: set<string>, op: Op): set<string> {
    match op
    case Assign(row) => if Has(s.rows, row.device, row.tag) then damaged + {row.device} else damaged
    case Unassign(_, _) => damaged
    case UnassignDevice(d) => damaged - {d}
    case CreateTag(_) => damaged
    case DeleteTag(t) => if t in s.tags then damaged + DevicesWith(s.rows, t) else damaged
  }

  function DamagedAfter(s: State, damaged: set<string>, ops: seq<Op>): set<string>
    decreases |ops|
  {
    if ops == [] then damaged else DamagedAfter(Next(s, ops[0]), Damaged(s, damaged, ops[0]), ops[1..])
  }

  // A healthy device lists exactly its rows, a damaged one more entries than it has rows.
  ghost predicate DeviceAt(c: Cache, rows: seq<DeviceTag>, damaged: set<string>, d: string) {
    var list, own := ListAt(c.byDevice, d), Select(rows, Device(d));
    if d in damaged then |list| > |own| else list == own
  }

  // Healthy devices stand under each tag as their rows do.
  ghost predicate TagAt(c: Cache, rows: seq<DeviceTag>, damaged: set<string>, t: TagId) {
    Select(ListAt(c.byTag, t), Outside(damaged)) == Select(Select(rows, Tag(t)), Outside(damaged))
  }

  predicate AllKept(list: seq<DeviceTag>, sel: Selector) {
    forall k | 0 <= k < |list| :: sel.Keeps(list[k])
  }

  // Every entry stands under its own device and its own tag.
  ghost predicate Keyed(c: Cache) {
    && (forall d :: AllKept(ListAt(c.byDevice, d), Device(d)))
    && (forall t :: AllKept(ListAt(c.byTag, t), Tag(t)))
  }

  // What the table or the tag index knows of a pair, the device index knows too.
  ghost predicate Covered(c: Cache, rows: seq<DeviceTag>) {
    forall d, t :: Has(rows, d, t) || Has(ListAt(c.byTag, t), d, t) ==> Has(ListAt(c.byDevice, d), d, t)
  }

  ghost predicate Tracks(c: Cache, rows: seq<DeviceTag>, damaged: set<string>) {
    && Unique(rows) && Keyed(c) && Covered(c, rows)
    && (forall d :: DeviceAt(c, rows, damaged, d))
    && (forall t :: TagAt(c, rows, damaged, t))
  }

  // ---------------------------------------------------- selections of selections

  lemma {:induction false} SameSelection(rows: seq<DeviceTag>, a: Selector, b: Selector)
    requires forall k | 0 <= k < |rows| :: a.Keeps(rows[k]) <==> b.Keeps(rows[k])
    ensures Select(rows, a) == Select(rows, b)
  {
    if rows == [] {
    } else {
      hide Selector.Keeps;
      SameSelection(rows[..|rows| - 1], a, b);
    }
  }

  lemma {:induction false} SelectBoth(rows: seq<DeviceTag>, a: Selector, b: Selector)
    ensures Select(Select(rows, a), b) == Select(rows, Both(a, b))
  {
    if rows == [] {
    } else {
      var init, last := rows[..|rows| - 1], rows[|rows| - 1];
      SelectBoth(init, a, b);
      assert rows == init + [last];
      hide Select;
      SelectTwiceSnoc(init, last, a, b);
      SelectSnoc(init, last, Both(a, b));
    }
  }

  // What holds of healthy devices carries over to every selector that keeps only such.
  lemma Transfer(c: Cache, rows: seq<DeviceTag>, damaged: set<string>, t: TagId, sel: Selector)
    requires TagAt(c, rows, damaged, t)
    requires forall row :: sel.Keeps(row) ==> row.device !in damaged
    ensures Select(ListAt(c.byTag, t), sel) == Select(Select(rows, Tag(t)), sel)
  {
    hide Select;
    var list, own, outside := ListAt(c.byTag, t), Select(rows, Tag(t)), Outside(damaged);
    SelectBoth(list, outside, sel);
    SelectBoth(own, outside, sel);
    SameSelection(list, sel, Both(outside, sel));
    SameSelection(own, sel, Both(outside, sel));
  }

  lemma HasAfterSelect(rows: seq<DeviceTag>, sel: Selector, d: string, t: TagId)
    ensures Has(Select(rows, sel), d, t)
       <==> exists k :: 0 <= k < |rows| && rows[k].device == d && rows[k].tag == t && sel.Keeps(rows[k])
  {
    hide Select, Selector.Keeps;
    var kept := Select(rows, sel);
    if Has(kept, d, t) {
      var k :| 0 <= k < |kept| && kept[k].device == d && kept[k].tag == t;
      SelectCounts(rows, sel, kept[k]);
      assert kept[k] in multiset(kept);
      assert kept[k] in rows;
    }
    if k :| 0 <= k < |rows| && rows[k].device == d && rows[k].tag == t && sel.Keeps(rows[k]) {
      SelectCounts(rows, sel, rows[k]);
      assert rows[k] in multiset(kept);
      assert rows[k] in kept;
    }
  }

  // ------------------------------------------------------- the device index, step by step

  lemma AssignAtDevice(c: Cache, rows: seq<DeviceTag>, damaged: set<string>, row: DeviceTag, d: string)
    requires DeviceAt(c, rows, damaged, d)
    ensures var damaged' := if Has(rows, row.device, row.tag) then damaged + {row.device} else damaged;
            DeviceAt(Inserted(c, row), Replaced(rows, row), damaged', d)
  {
    hide Select;
    var sel, own := NotPair(row.device, row.tag), Select(rows, Device(d));
    SelectSnoc(Select(rows, sel), row, Device(d));
    SelectsCommute(rows, sel, Device(d));
    if d != row.device {
      SelectKeepsAll(own, sel);
      assert own + [] == own;
    } else if Has(rows, row.device, row.tag) {
      PairIsDropped(rows, d, row.tag);
    } else {
      SelectKeepsAll(rows, sel);
    }
  }

  lemma PairIsDropped(rows: seq<DeviceTag>, d: string, t: TagId)
    requires Has(rows, d, t)
    ensures |Select(Select(rows, Device(d)), NotPair(d, t))| < |Select(rows, Device(d))|
  {
    hide Select;
    var x :| 0 <= x < |rows| && rows[x].device == d && rows[x].tag == t;
    SelectCounts(rows, Device(d), rows[x]);
    assert rows[x] in multiset(Select(rows, Device(d)));
    SelectIsShorter(Select(rows, Device(d)), NotPair(d, t), rows[x]);
  }

  lemma UnassignAtDevice(c: Cache, rows: seq<DeviceTag>, damaged: set<string>, device: string, t: TagId, d: string)
    requires DeviceAt(c, rows, damaged, d) && Unique(rows) && Keyed(c) && Covered(c, rows) && Has(rows, device, t)
    ensures Removed(c, device, t).1.Some?
    ensures DeviceAt(Removed(c, device, t).0, Select(rows, NotPair(device, t)), damaged, d)
  {
    hide Select;
    var list, own, sel := ListAt(c.byDevice, device), Select(rows, Device(d)), NotPair(device, t);
    assert Has(list, device, t) && AllKept(list, Device(device));
    var k := PositionOf(list, t).value;
    SelectsCommute(rows, sel, Device(d));
    if d != device {
      SelectKeepsAll(own, sel);
    } else if d in damaged {
      PairIsDropped(rows, d, t);
    } else {
      SelectKeepsUnique(rows, Device(d));
      DropFirstIsDropAll(list, device, t, k);
    }
  }

  lemma UnassignDeviceAtDevice(c: Cache, rows: seq<DeviceTag>, damaged: set<string>, device: string, d: string)
    requires DeviceAt(c, rows, damaged, d)
    ensures DeviceAt(RemovedByDevice(c, device), Select(rows, NotDevice(device)), damaged - {device}, d)
  {
    hide Select, Retained;
    var own, sel := Select(rows, Device(d)), NotDevice(device);
    SelectsCommute(rows, sel, Device(d));
    if d == device {
      SelectNothing(rows, sel, Device(d));
    } else {
      SelectKeepsAll(own, sel);
    }
  }

  lemma DeleteTagAtDevice(c: Cache, rows: seq<DeviceTag>, damaged: set<string>, t: TagId, d: string)
    requires DeviceAt(c, rows, damaged, d)
    ensures DeviceAt(c, Select(rows, NotTag(t)), damaged + DevicesWith(rows, t), d)
  {
    hide Select;
    var own, sel := Select(rows, Device(d)), NotTag(t);
    SelectsCommute(rows, sel, Device(d));
    if d in DevicesWith(rows, t) {
      var k :| 0 <= k < |rows| && rows[k].tag == t && rows[k].device == d;
      SelectCounts(rows, Device(d), rows[k]);
      assert rows[k] in multiset(own);
      SelectIsShorter(own, sel, rows[k]);
    } else {
      forall k | 0 <= k < |own| ensures sel.Keeps(own[k]) {
        SelectCounts(rows, Device(d), own[k]);
        assert own[k] in multiset(own);
        assert own[k] in rows;
      }
      SelectKeepsAll(own, sel);
    }
  }

  // ---------------------------------------------------------- the tag index, step by step

  // Dropping the same entries from the tag index and from the table.
  lemma DropAtTag(
    c: Cache, c': Cache, rows: seq<DeviceTag>, damaged: set<string>, damaged': set<string>, drop: Selector, t: TagId)
    requires TagAt(c, rows, damaged, t)
    requires ListAt(c'.byTag, t) == Select(ListAt(c.byTag, t), drop)
    requires forall row :: drop.Keeps(row) && row.device !in damaged' ==> row.device !in damaged
    ensures TagAt(c', Select(rows, drop), damaged', t)
  {
    hide Select;
    var list, outside := ListAt(c.byTag, t), Outside(damaged');
    SelectBoth(list, drop, outside);
    Transfer(c, rows, damaged, t, Both(drop, outside));
    SelectBoth(rows, Tag(t), Both(drop, outside));
    SelectBoth(rows, drop, Tag(t));
    SelectBoth(rows, Both(drop, Tag(t)), outside);
    SameSelection(rows, Both(Tag(t), Both(drop, outside)), Both(Both(drop, Tag(t)), outside));
  }

  // Rows that only differ in damaged devices.
  lemma OtherRowsAtTag(
    c: Cache, rows: seq<DeviceTag>, damaged: set<string>, drop: Selector, damaged': set<string>, t: TagId)
    requires TagAt(c, rows, damaged, t) && damaged <= damaged'
    requires forall k | 0 <= k < |rows| && !drop.Keeps(rows[k]) :: rows[k].device in damaged'
    ensures TagAt(c, Select(rows, drop), damaged', t)
  {
    hide Select;
    var outside := Outside(damaged');
    Transfer(c, rows, damaged, t, outside);
    SelectBoth(rows, Tag(t), outside);
    SelectBoth(rows, drop, Tag(t));
    SelectBoth(rows, Both(drop, Tag(t)), outside);
    SameSelection(rows, Both(Tag(t), outside), Both(Both(drop, Tag(t)), outside));
  }

  // Adding one entry to both.
  lemma AddAtTag(c: Cache, rows: seq<DeviceTag>, damaged: set<string>, row: DeviceTag, t: TagId)
    requires TagAt(c, rows, damaged, t)
    ensures TagAt(Inserted(c, row), rows + [row], damaged, t)
  {
    hide Select;
    SelectTwiceSnoc(rows, row, Tag(t), Outside(damaged));
    SelectSnoc(ListAt(c.byTag, t), row, Outside(damaged));
    var own := Select(Select(rows, Tag(t)), Outside(damaged));
    assert own + [] == own;
  }

  lemma AssignAtTag(c: Cache, rows: seq<DeviceTag>, damaged: set<string>, row: DeviceTag, t: TagId)
    requires TagAt(c, rows, damaged, t)
    ensures var damaged' := if Has(rows, row.device, row.tag) then damaged + {row.device} else damaged;
            TagAt(Inserted(c, row), Replaced(rows, row), damaged', t)
  {
    hide Select, TagAt, Inserted;
    var sel := NotPair(row.device, row.tag);
    if Has(rows, row.device, row.tag) {
      OtherRowsAtTag(c, rows, damaged, sel, damaged + {row.device}, t);
      AddAtTag(c, Select(rows, sel), damaged + {row.device}, row, t);
    } else {
      SelectKeepsAll(rows, sel);
      AddAtTag(c, rows, damaged, row, t);
    }
  }

  lemma UnassignDropsFromTag(c: Cache, device: string, tag: TagId, t: TagId)
    requires Keyed(c) && Removed(c, device, tag).1.Some?
    ensures ListAt(Removed(c, device, tag).0.byTag, t) == Select(ListAt(c.byTag, t), NotPair(device, tag))
  {
    hide Select;
    assert AllKept(ListAt(c.byTag, t), Tag(t));
    SelectKeepsAll(ListAt(c.byTag, t), NotPair(device, tag));
  }

  lemma UnassignDeviceDropsFromTag(c: Cache, rows: seq<DeviceTag>, device: string, t: TagId)
    requires Keyed(c) && Covered(c, rows)
    ensures ListAt(RemovedByDevice(c, device).byTag, t) == Select(ListAt(c.byTag, t), NotDevice(device))
  {
    hide Select, Retained;
    var removed, list := ListAt(c.byDevice, device), ListAt(c.byTag, t);
    RetainedIs(c.byTag, removed, device, t);
    SelectKeepsAll(list, NotDevice(device));
    assert AllKept(list, Tag(t));
    forall k | 0 <= k < |list| && list[k].device == device
      ensures exists j :: 0 <= j < |removed| && removed[j].tag == t
    {
      assert Has(list, device, t);
      assert Has(removed, device, t);
    }
  }

  // ------------------------------------------------------------- coverage, step by step

  lemma AssignCovers(c: Cache, rows: seq<DeviceTag>, row: DeviceTag)
    requires Keyed(c) && Covered(c, rows)
    ensures Keyed(Inserted(c, row)) && Covered(Inserted(c, row), Replaced(rows, row))
  {
    hide Select, Has;
    var sel, c' := NotPair(row.device, row.tag), Inserted(c, row);
    forall d ensures AllKept(ListAt(c'.byDevice, d), Device(d)) {
      assert AllKept(ListAt(c.byDevice, d), Device(d));
    }
    forall t ensures AllKept(ListAt(c'.byTag, t), Tag(t)) {
      assert AllKept(ListAt(c.byTag, t), Tag(t));
    }
    forall d, t | Has(Replaced(rows, row), d, t) || Has(ListAt(c'.byTag, t), d, t)
      ensures Has(ListAt(c'.byDevice, d), d, t)
    {
      HasAfterSelect(rows, sel, d, t);
      HasSnoc(Select(rows, sel), row, d, t);
      HasSnoc(ListAt(c.byTag, t), row, d, t);
      HasSnoc(ListAt(c.byDevice, d), row, d, t);
    }
  }

  lemma HasSnoc(rows: seq<DeviceTag>, row: DeviceTag, d: string, t: TagId)
    ensures Has(rows + [row], d, t) <==> Has(rows, d, t) || (row.device == d && row.tag == t)
  {
    hide Has;
    var more := rows + [row];
    assert more[|rows|] == row;
    assert forall k | 0 <= k < |rows| :: more[k] == rows[k];
  }

  lemma UnassignCovers(c: Cache, rows: seq<DeviceTag>, device: string, tag: TagId)
    requires Keyed(c) && Covered(c, rows) && Removed(c, device, tag).1.Some?
    ensures Keyed(Removed(c, device, tag).0)
    ensures Covered(Removed(c, device, tag).0, Select(rows, NotPair(device, tag)))
  {
    hide Select, Has;
    var sel, c' := NotPair(device, tag), Removed(c, device, tag).0;
    var list := ListAt(c.byDevice, device);
    var k := PositionOf(list, tag).value;
    forall d ensures AllKept(ListAt(c'.byDevice, d), Device(d)) {
      assert AllKept(ListAt(c.byDevice, d), Device(d));
    }
    forall t ensures AllKept(ListAt(c'.byTag, t), Tag(t)) {
      UnassignDropsFromTag(c, device, tag, t);
      KeptStayKept(ListAt(c.byTag, t), sel, Tag(t));
    }
    assert AllKept(list, Device(device));
    forall d, t | Has(Select(rows, sel), d, t) || Has(ListAt(c'.byTag, t), d, t)
      ensures Has(ListAt(c'.byDevice, d), d, t)
    {
      UnassignDropsFromTag(c, device, tag, t);
      HasAfterSelect(rows, sel, d, t);
      HasAfterSelect(ListAt(c.byTag, t), sel, d, t);
      assert Has(ListAt(c.byDevice, d), d, t);
      if d == device {
        var i :| 0 <= i < |list| && list[i].device == d && list[i].tag == t;
        var rest := list[..k] + list[k + 1..];
        assert rest[if i < k then i else i - 1] == list[i];
      }
    }
  }

  lemma KeptStayKept(rows: seq<DeviceTag>, sel: Selector, all: Selector)
    requires AllKept(rows, all)
    ensures AllKept(Select(rows, sel), all)
  {
    hide Select, Selector.Keeps;
    var kept := Select(rows, sel);
    forall k | 0 <= k < |kept| ensures all.Keeps(kept[k]) {
      SelectCounts(rows, sel, kept[k]);
      assert kept[k] in multiset(kept);
      assert kept[k] in rows;
    }
  }

  lemma UnassignDeviceCovers(c: Cache, rows: seq<DeviceTag>, device: string)
    requires Keyed(c) && Covered(c, rows)
    ensures Keyed(RemovedByDevice(c, device))
    ensures Covered(RemovedByDevice(c, device), Select(rows, NotDevice(device)))
  {
    hide Select, Has, Retained;
    var sel, c' := NotDevice(device), RemovedByDevice(c, device);
    forall d ensures AllKept(ListAt(c'.byDevice, d), Device(d)) {
      assert AllKept(ListAt(c.byDevice, d), Device(d));
    }
    forall t ensures AllKept(ListAt(c'.byTag, t), Tag(t)) {
      UnassignDeviceDropsFromTag(c, rows, device, t);
      KeptStayKept(ListAt(c.byTag, t), sel, Tag(t));
    }
    forall d, t | Has(Select(rows, sel), d, t) || Has(ListAt(c'.byTag, t), d, t)
      ensures Has(ListAt(c'.byDevice, d), d, t)
    {
      UnassignDeviceDropsFromTag(c, rows, device, t);
      HasAfterSelect(rows, sel, d, t);
      HasAfterSelect(ListAt(c.byTag, t), sel, d, t);
    }
  }

  lemma DeleteTagCovers(c: Cache, rows: seq<DeviceTag>, tag: TagId)
    requires Covered(c, rows)
    ensures Covered(c, Select(rows, NotTag(tag)))
  {
    hide Select, Has;
    forall d, t | Has(Select(rows, NotTag(tag)), d, t) ensures Has(rows, d, t) {
      HasAfterSelect(rows, NotTag(tag), d, t);
    }
  }

  // -------------------------------------------------------------------- all steps

  lemma NextKeepsTrack(s: State, damaged: set<string>, op: Op)
    requires Tracks(s.cache, s.rows, damaged)
    ensures Tracks(Next(s, op).cache, Next(s, op).rows, Damaged(s, damaged, op))
  {
    hide Select, Has, Unique, Keyed, Covered, DeviceAt, TagAt, DevicesWith;
    hide Inserted, Replaced, Removed, RemovedByDevice;
    match op
    case Assign(row) =>
      AssignTracks(s.cache, s.rows, damaged, row);
    case Unassign(d, t) =>
      if Has(s.rows, d, t) {
        UnassignTracks(s.cache, s.rows, damaged, d, t);
      } else {
        SelectKeepsAll(s.rows, NotPair(d, t));
      }
    case UnassignDevice(d) =>
      UnassignDeviceTracks(s.cache, s.rows, damaged, d);
    case CreateTag(_) =>
    case DeleteTag(t) =>
      if t in s.tags {
        DeleteTagTracks(s.cache, s.rows, damaged, t);
      }
  }

  lemma AssignTracks(c: Cache, rows: seq<DeviceTag>, damaged: set<string>, row: DeviceTag)
    requires Tracks(c, rows, damaged)
    ensures var damaged' := if Has(rows, row.device, row.tag) then damaged + {row.device} else damaged;
            Tracks(Inserted(c, row), Replaced(rows, row), damaged')
  {
    hide Select, Has, Unique, Keyed, Covered, DeviceAt, TagAt, Inserted, Replaced;
    ReplacedKeepsUnique(rows, row);
    AssignCovers(c, rows, row);
    var damaged' := if Has(rows, row.device, row.tag) then damaged + {row.device} else damaged;
    forall d ensures DeviceAt(Inserted(c, row), Replaced(rows, row), damaged', d) {
      AssignAtDevice(c, rows, damaged, row, d);
    }
    forall t ensures TagAt(Inserted(c, row), Replaced(rows, row), damaged', t) {
      AssignAtTag(c, rows, damaged, row, t);
    }
  }

  lemma UnassignTracks(c: Cache, rows: seq<DeviceTag>, damaged: set<string>, device: string, tag: TagId)
    requires Tracks(c, rows, damaged) && Has(rows, device, tag)
    ensures Tracks(Removed(c, device, tag).0, Select(rows, NotPair(device, tag)), damaged)
  {
    hide Select, Has, Unique, Keyed, Covered, DeviceAt, TagAt, Removed;
    var c', rows' := Removed(c, device, tag).0, Select(rows, NotPair(device, tag));
    SelectKeepsUnique(rows, NotPair(device, tag));
    UnassignAtDevice(c, rows, damaged, device, tag, device);
    UnassignCovers(c, rows, device, tag);
    forall d ensures DeviceAt(c', rows', damaged, d) {
      UnassignAtDevice(c, rows, damaged, device, tag, d);
    }
    forall t ensures TagAt(c', rows', damaged, t) {
      UnassignDropsFromTag(c, device, tag, t);
      DropAtTag(c, c', rows, damaged, damaged, NotPair(device, tag), t);
    }
  }

  lemma UnassignDeviceTracks(c: Cache, rows: seq<DeviceTag>, damaged: set<string>, device: string)
    requires Tracks(c, rows, damaged)
    ensures Tracks(RemovedByDevice(c, device), Select(rows, NotDevice(device)), damaged - {device})
  {
    hide Select, Has, Unique, Keyed, Covered, DeviceAt, TagAt, RemovedByDevice;
    var c', rows' := RemovedByDevice(c, device), Select(rows, NotDevice(device));
    SelectKeepsUnique(rows, NotDevice(device));
    UnassignDeviceCovers(c, rows, device);
    forall d ensures DeviceAt(c', rows', damaged - {device}, d) {
      UnassignDeviceAtDevice(c, rows, damaged, device, d);
    }
    forall t ensures TagAt(c', rows', damaged - {device}, t) {
      UnassignDeviceDropsFromTag(c, rows, device, t);
      DropAtTag(c, c', rows, damaged, damaged - {device}, NotDevice(device), t);
    }
  }

  lemma DeleteTagTracks(c: Cache, rows: seq<DeviceTag>, damaged: set<string>, tag: TagId)
    requires Tracks(c, rows, damaged)
    ensures Tracks(c, Select(rows, NotTag(tag)), damaged + DevicesWith(rows, tag))
  {
    hide Select, Has, Unique, Keyed, Covered, DeviceAt, TagAt;
    var rows', damaged' := Select(rows, NotTag(tag)), damaged + DevicesWith(rows, tag);
    SelectKeepsUnique(rows, NotTag(tag));
    DeleteTagCovers(c, rows, tag);
    forall d ensures DeviceAt(c, rows', damaged', d) {
      DeleteTagAtDevice(c, rows, damaged, tag, d);
    }
    forall t ensures TagAt(c, rows', damaged', t) {
      OtherRowsAtTag(c, rows, damaged, NotTag(tag), damaged', t);
    }
  }

  lemma {:induction false} RunKeepsTrack(s: State, damaged: set<string>, ops: seq<Op>)
    requires Tracks(s.cache, s.rows, damaged)
    ensures Tracks(Run(s, ops).cache, Run(s, ops).rows, DamagedAfter(s, damaged, ops))
    decreases |ops|
  {
    hide Tracks, Next, Damaged;
    if ops == [] {
    } else {
      NextKeepsTrack(s, damaged, ops[0]);
      RunKeepsTrack(Next(s, ops[0]), Damaged(s, damaged, ops[0]), ops[1..]);
    }
  }

  lemma AgreementTracks(c: Cache, rows: seq<DeviceTag>)
    requires Agrees(c, rows) && Unique(rows)
    ensures Tracks(c, rows, {})
  {
    hide Select, Has, Unique;
    forall d, t ensures Has(ListAt(c.byDevice, d), d, t) <==> Has(rows, d, t)
                ensures Has(ListAt(c.byTag, t), d, t) <==> Has(rows, d, t)
    {
      HasAfterSelect(rows, Device(d), d, t);
      HasAfterSelect(rows, Tag(t), d, t);
    }
  }

  lemma TrackingAgreesIff(c: Cache, rows: seq<DeviceTag>, damaged: set<string>)
    requires Tracks(c, rows, damaged)
    ensures Agrees(c, rows) <==> damaged == {}
  {
    hide Select, Has, Unique, Keyed, Covered;
    if damaged == {} {
      forall t ensures ListAt(c.byTag, t) == Select(rows, Tag(t)) {
        assert TagAt(c, rows, damaged, t);
        SelectKeepsAll(ListAt(c.byTag, t), Outside({}));
        SelectKeepsAll(Select(rows, Tag(t)), Outside({}));
      }
      forall d ensures ListAt(c.byDevice, d) == Select(rows, Device(d)) {
        assert DeviceAt(c, rows, damaged, d);
      }
    } else {
      var d :| d in damaged;
      assert DeviceAt(c, rows, damaged, d);
    }
  }

  // Assigning keeps agreement exactly when the pair was not assigned: a repeated pair is replaced in
  // the table and added once more in the cache.
  lemma AssignKeepsAgreementIff(c: Cache, rows: seq<DeviceTag>, row: DeviceTag)
    requires Agrees(c, rows) && Unique(rows)
    ensures Agrees(Inserted(c, row), Replaced(rows, row)) <==> !Has(rows, row.device, row.tag)
  {
    hide Agrees, Tracks, Has, Inserted, Replaced;
    var none: set<string> := {};
    AgreementTracks(c, rows);
    AssignTracks(c, rows, none, row);
    var damaged := if Has(rows, row.device, row.tag) then none + {row.device} else none;
    TrackingAgreesIff(Inserted(c, row), Replaced(rows, row), damaged);
  }

  lemma RemoveKeepsAgreement(c: Cache, rows: seq<DeviceTag>, device: string, tag: TagId)
    requires Agrees(c, rows) && Unique(rows)
    ensures var after := if Has(rows, device, tag) then Removed(c, device, tag).0 else c;
            Agrees(after, Select(rows, NotPair(device, tag)))
    ensures Has(rows, device, tag) ==> Removed(c, device, tag).1.Some? && Removed(c, device, tag).1.value in rows
  {
    hide Select;
    if Has(rows, device, tag) {
      AgreementTracks(c, rows);
      UnassignTracks(c, rows, {}, device, tag);
      TrackingAgreesIff(Removed(c, device, tag).0, Select(rows, NotPair(device, tag)), {});
      UnassignAtDevice(c, rows, {}, device, tag, device);
      var list := ListAt(c.byDevice, device);
      SelectCounts(rows, Device(device), list[PositionOf(list, tag).value]);
      assert list[PositionOf(list, tag).value] in multiset(list);
    } else {
      SelectKeepsAll(rows, NotPair(device, tag));
    }
  }

  // From agreement, any run of assigns, removals, tag creations and tag deletions ends in agreement
  // if and only if no device is left damaged: every device with a pair assigned again, or with a tag
  // deleted under it, has had all its tags removed since.
  lemma RunAgreesIff(s: State, ops: seq<Op>)
    requires Agrees(s.cache, s.rows) && Unique(s.rows)
    ensures Agrees(Run(s, ops).cache, Run(s, ops).rows) <==> DamagedAfter(s, {}, ops) == {}
    ensures Unique(Run(s, ops).rows)
  {
    hide Agrees, Run, DamagedAfter;
    AgreementTracks(s.cache, s.rows);
    RunKeepsTrack(s, {}, ops);
    TrackingAgreesIff(Run(s, ops).cache, Run(s, ops).rows, DamagedAfter(s, {}, ops));
  }

  // Every assign of the run names a pair that is not assigned at that moment, and every tag deletion
  // a tag that is not.
  ghost predicate FreshAssigns(s: State, ops: seq<Op>)
    decreases |ops|
  {
    ops != [] ==>
      && (ops[0].Assign? ==> !Has(s.rows, ops[0].row.device, ops[0].row.tag))
      && (ops[0].DeleteTag? ==> ops[0].tag !in s.tags || DevicesWith(s.rows, ops[0].tag) == {})
      && FreshAssigns(Next(s, ops[0]), ops[1..])
  }

  lemma {:induction false} FreshAssignsDamageNothing(s: State, ops: seq<Op>)
    requires FreshAssigns(s, ops)
    ensures DamagedAfter(s, {}, ops) == {}
    decreases |ops|
  {
    hide Next, Has, DevicesWith;
    if ops == [] {
    } else {
      assert Damaged(s, {}, ops[0]) == {};
      FreshAssignsDamageNothing(Next(s, ops[0]), ops[1..]);
    }
  }

  // So fresh assigns, removals and deletions of unused tags keep agreement all along.
  lemma RunKeepsAgreement(s: State, ops: seq<Op>)
    requires Agrees(s.cache, s.rows) && Unique(s.rows) && FreshAssigns(s, ops)
    ensures Agrees(Run(s, ops).cache, Run(s, ops).rows) && Unique(Run(s, ops).rows)
  {
    FreshAssignsDamageNothing(s, ops);
    RunAgreesIff(s, ops);
  }

  // After any run of fresh assigns and removals on an opened store, reopening it, with the rows listed
  // in any order, gives the same entries under every key; in the table's order, the same lists.
  lemma ReloadRebuildsTheView(
    tags: set<TagId>, rows: seq<DeviceTag>, ops: seq<Op>, listed: seq<DeviceTag>, d: string, t: TagId)
    requires Unique(rows) && FreshAssigns(State(Loaded(rows), rows, tags), ops)
    requires multiset(listed) == multiset(Run(State(Loaded(rows), rows, tags), ops).rows)
    ensures var last := Run(State(Loaded(rows), rows, tags), ops);
            && Agrees(last.cache, last.rows)
            && multiset(ListAt(Loaded(listed).byDevice, d)) == multiset(ListAt(last.cache.byDevice, d))
            && multiset(ListAt(Loaded(listed).byTag, t)) == multiset(ListAt(last.cache.byTag, t))
            && (listed == last.rows ==> ListAt(Loaded(listed).byDevice, d) == ListAt(last.cache.byDevice, d)
                                        && ListAt(Loaded(listed).byTag, t) == ListAt(last.cache.byTag, t))
  {
    hide Run, FreshAssigns, Loaded, Unique;
    LoadedAgrees(rows);
    RunKeepsAgreement(State(Loaded(rows), rows, tags), ops);
    LoadedAgrees(listed);
    var last := Run(State(Loaded(rows), rows, tags), ops);
    SameRowsSameSelection(listed, last.rows, Device(d));
    SameRowsSameSelection(listed, last.rows, Tag(t));
  }

  lemma SameRowsSameSelection(a: seq<DeviceTag>, b: seq<DeviceTag>, sel: Selector)
    requires multiset(a) == multiset(b)
    ensures multiset(Select(a, sel)) == multiset(Select(b, sel))
  {
    forall x ensures multiset(Select(a, sel))[x] == multiset(Select(b, sel))[x] {
      SelectCounts(a, sel, x);
      SelectCounts(b, sel, x);
    }
  }
}
