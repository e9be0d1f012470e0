/**
 * Touch and keyboard input of the game: the names of the touch-event
 * types, the `TouchTracker` that keeps the touches currently on the screen
 * from one batch of touch events to the next, and the set of keys held
 * down. Both front ends (`src/event.rs` and `breakout/src/event.rs`) share
 * this logic; they differ only in the key type of the keyboard state.
 */
module Events {

  import opened Wrappers

  /** One point of contact. Identifiers are small unsigned integers; the coordinates are carried, never computed with. */
  datatype Touch = Touch(identifier: nat, screenX: real, screenY: real, clientX: real, clientY: real,
                         pageX: real, pageY: real)

  datatype TouchEventType = TouchCancel | TouchEnd | TouchMove | TouchStart

  /** A touch event: its type and the touches it lists. */
  datatype TouchEvent = TouchEvent(kind: TouchEventType, touches: seq<Touch>)

  // ---------------------------------------------------------------------
  // The event-type names
  // ---------------------------------------------------------------------

  /** The DOM name of each type. */
  function TypeName(t: TouchEventType): string {
    match t
    case TouchCancel => "touchcancel"
    case TouchEnd => "touchend"
    case TouchMove => "touchmove"
    case TouchStart => "touchstart"
  }

  /**
   * `TouchEventType::try_from`. Its argument is a JavaScript value, which
   * may not be a string at all (None); the result None stands for the error.
   */
  function ParseTouchEventType(v: Option<string>): (r: Option<TouchEventType>)
    ensures r.Some? ==> v == Some(TypeName(r.value))
  {
    match v
    case None => None
    case Some(s) =>
      if s == "touchcancel" then Some(TouchCancel)
      else if s == "touchend" then Some(TouchEnd)
      else if s == "touchmove" then Some(TouchMove)
      else if s == "touchstart" then Some(TouchStart)
      else None
  }

  /** Each type's name parses to that type and to no other. */
  lemma ParseTypeName(s: string, t: TouchEventType)
    ensures ParseTouchEventType(Some(s)) == Some(t) <==> s == TypeName(t)
  {
    if s == TypeName(t) {
      match t
      case TouchCancel =>
      case TouchEnd => assert s != "touchcancel" by { assert s[5] != "touchcancel"[5]; }
      case TouchMove => assert s != "touchcancel" && s != "touchend" by { assert s[5] == 'm'; }
      case TouchStart => assert s != "touchcancel" && s != "touchend" && s != "touchmove" by { assert s[5] == 's'; }
    }
  }

  /** The parse accepts exactly the four names and refuses every other string. */
  lemma ParseAcceptsExactlyFour(s: string)
    ensures ParseTouchEventType(Some(s)).Some? <==> s in {"touchcancel", "touchend", "touchmove", "touchstart"}
  {
  }

  // ---------------------------------------------------------------------
  // Lists of touches and the identifier map
  // ---------------------------------------------------------------------

  /** The identifiers of a list of touches. */
  function Ids(ts: seq<Touch>): set<nat> {
    set j | 0 <= j < |ts| :: ts[j].identifier
  }

  predicate Distinct(ts: seq<Touch>) {
    forall j, k :: 0 <= j < k < |ts| ==> ts[j].identifier != ts[k].identifier
  }

  /** Every touch's identifier is in the map and maps to the touch's own index. */
  predicate OwnIndex(m: map<nat, nat>, ts: seq<Touch>) {
    forall j :: 0 <= j < |ts| ==> ts[j].identifier in m && m[ts[j].identifier] == j
  }

  /** The map is an exact index of the list: it also holds nothing else. */
  predicate Exact(m: map<nat, nat>, ts: seq<Touch>) {
    OwnIndex(m, ts) && forall id :: id in m ==> m[id] < |ts| && ts[m[id]].identifier == id
  }

  /** A map in which every touch has its own index leaves no two touches the same identifier. */
  lemma OwnIndexDistinct(m: map<nat, nat>, ts: seq<Touch>)
    requires OwnIndex(m, ts)
    ensures Distinct(ts)
  {
    forall j, k | 0 <= j < k < |ts| ensures ts[j].identifier != ts[k].identifier {
      assert m[ts[j].identifier] == j && m[ts[k].identifier] == k;
    }
  }

  /** The map the first loop of `update` builds: index by index, a later index overwriting an earlier one. */
  function IdMapOf(ts: seq<Touch>): (m: map<nat, nat>)
    ensures forall id :: id in m ==> m[id] < |ts| && ts[m[id]].identifier == id
    decreases |ts|
  {
    if ts == [] then map[] else IdMapOf(ts[..|ts| - 1])[ts[|ts| - 1].identifier := |ts| - 1]
  }

  /** The identifier map holds every identifier of the list, with the last index at which it occurs. */
  lemma IdMapLastWins(ts: seq<Touch>)
    ensures forall id :: id in IdMapOf(ts) <==> id in Ids(ts)
    ensures forall id :: id in IdMapOf(ts) ==>
              IdMapOf(ts)[id] < |ts| && ts[IdMapOf(ts)[id]].identifier == id
              && forall j :: IdMapOf(ts)[id] < j < |ts| ==> ts[j].identifier != id
  {
    IdMapKeys(ts);
    IdMapLast(ts);
  }

  /** The keys of the identifier map are the identifiers of the list. */
  lemma {:induction false} IdMapKeys(ts: seq<Touch>)
    ensures forall id :: id in IdMapOf(ts) <==> id in Ids(ts)
    decreases |ts|
  {
    if ts != [] {
      IdMapKeys(ts[..|ts| - 1]);
      IdsOfSnoc(ts);
    }
  }

  /** Each key of the identifier map goes to the last index of its identifier. */
  lemma {:induction false} IdMapLast(ts: seq<Touch>)
    ensures forall id :: id in IdMapOf(ts) ==>
              IdMapOf(ts)[id] < |ts| && ts[IdMapOf(ts)[id]].identifier == id
              && forall j :: IdMapOf(ts)[id] < j < |ts| ==> ts[j].identifier != id
    decreases |ts|
  {
    if ts != [] {
      var n := |ts| - 1;
      var init := ts[..n];
      IdMapLast(init);
      var mi := IdMapOf(init);
      var m := IdMapOf(ts);
      assert m == mi[ts[n].identifier := n];
      forall id | id in m
        ensures m[id] < |ts| && ts[m[id]].identifier == id && forall j :: m[id] < j < |ts| ==> ts[j].identifier != id
      {
        if id != ts[n].identifier {
          var k := mi[id];
          assert m[id] == k && k < n && ts[k] == init[k];
          forall j | k < j < |ts| ensures ts[j].identifier != id {
            if j < n {
              assert ts[j] == init[j];
            }
          }
        }
      }
    }
  }

  lemma IdsOfSnoc(ts: seq<Touch>)
    requires ts != []
    ensures Ids(ts) == Ids(ts[..|ts| - 1]) + {ts[|ts| - 1].identifier}
  {
    var n := |ts| - 1;
    var init := ts[..n];
    forall id ensures id in Ids(ts) <==> id in Ids(init) || id == ts[n].identifier {
      if id in Ids(ts) && id != ts[n].identifier {
        var j :| 0 <= j < |ts| && ts[j].identifier == id;
        assert init[j].identifier == id;
      }
      if id in Ids(init) {
        var j :| 0 <= j < n && init[j].identifier == id;
        assert ts[j].identifier == id;
      }
    }
  }

  /** Over a list of distinct identifiers, the identifier map is an exact index. */
  lemma IdMapExact(ts: seq<Touch>)
    requires Distinct(ts)
    ensures Exact(IdMapOf(ts), ts)
  {
    IdMapLastWins(ts);
    var m := IdMapOf(ts);
    forall j | 0 <= j < |ts| ensures ts[j].identifier in m && m[ts[j].identifier] == j {
      assert ts[j].identifier in Ids(ts);
    }
  }

  // ---------------------------------------------------------------------
  // `TouchTracker::update`, as written
  // ---------------------------------------------------------------------

  /** The tracker's state during `update`: whether it has panicked, the touches, and the identifier map. */
  datatype Tracked = Tracked(ok: bool, touches: seq<Touch>, ids: map<nat, nat>)

  /**
   * One touch of a TouchStart or TouchMove event. A mapped identifier
   * overwrites the touch at its index, and the write panics when the index
   * is past the end; an unmapped one is pushed and mapped to its new index.
   */
  function Put(ts: seq<Touch>, m: map<nat, nat>, t: Touch): (r: Tracked)
    ensures !r.ok <==> t.identifier in m && m[t.identifier] >= |ts|
    ensures r.ok ==> t in r.touches && t.identifier in r.ids
    ensures m.Keys <= r.ids.Keys
  {
    if t.identifier in m then
      if m[t.identifier] < |ts| then
        var touches := ts[m[t.identifier] := t];
        assert touches[m[t.identifier]] == t;
        Tracked(true, touches, m)
      else Tracked(false, ts, m)
    else Tracked(true, ts + [t], m[t.identifier := |ts|])
  }

  /** The touches of a TouchStart or TouchMove event, in order, stopping at a panic. */
  function PutEach(ts: seq<Touch>, m: map<nat, nat>, list: seq<Touch>): (r: Tracked)
    ensures m.Keys <= r.ids.Keys
    ensures r.ok ==> forall k :: 0 <= k < |list| ==> list[k].identifier in r.ids
    decreases |list|
  {
    if list == [] then Tracked(true, ts, m)
    else
      var r := Put(ts, m, list[0]);
      if !r.ok then r else PutEach(r.touches, r.ids, list[1..])
  }

  /** Overwriting touch `i` with the last one, then popping the last. */
  function Swapped(ts: seq<Touch>, i: nat): (r: seq<Touch>)
    requires i < |ts|
    ensures |r| == |ts| - 1
    ensures multiset(r) + multiset{ts[i]} == multiset(ts)
    ensures forall j :: 0 <= j < |r| ==> r[j] == if j == i then ts[|ts| - 1] else ts[j]
  {
    var last := |ts| - 1;
    var moved := ts[i := ts[last]];
    assert moved == moved[..last] + [ts[last]];
    assert multiset(moved) == multiset(ts) - multiset{ts[i]} + multiset{ts[last]};
    moved[..last]
  }

  /**
   * The touches left by the removal loop of a TouchEnd or TouchCancel
   * event, from index `i` on: a touch whose identifier is listed is kept
   * and the loop moves on; any other is replaced by the last touch, which is
   * then examined in its place.
   */
  function SwapRemove(ts: seq<Touch>, keep: set<nat>, i: nat): (r: seq<Touch>)
    requires i <= |ts|
    ensures i <= |r| <= |ts| && r[..i] == ts[..i]
    ensures forall j :: i <= j < |r| ==> r[j].identifier in keep
    decreases |ts| - i
  {
    if i == |ts| then ts
    else if ts[i].identifier in keep then SwapRemove(ts, keep, i + 1)
    else SwapRemove(Swapped(ts, i), keep, i)
  }

  /**
   * How the bookkeeping of one removal is done: `AsWritten` removes the
   * removed identifier and then maps the moved touch's identifier to `i`,
   * which re-inserts the removed identifier when it was the last touch;
   * `Corrected` leaves the removed identifier out in that case.
   */
  datatype Variant = AsWritten | Corrected

  /** The identifier map after removing touch `i`. */
  function DropEntry(v: Variant, ts: seq<Touch>, m: map<nat, nat>, i: nat): (r: map<nat, nat>)
    requires i < |ts|
    ensures ts[i].identifier in r ==> ts[i].identifier == ts[|ts| - 1].identifier && (v == AsWritten || i < |ts| - 1)
    ensures forall id :: id in r && id != ts[|ts| - 1].identifier ==> id in m && r[id] == m[id]
  {
    var last := |ts| - 1;
    var dropped := m - {ts[i].identifier};
    if v == AsWritten || i < last then dropped[ts[last].identifier := i] else dropped
  }

  /** The identifier map left by the removal loop, from index `i` on. */
  function RetainMap(v: Variant, ts: seq<Touch>, m: map<nat, nat>, keep: set<nat>, i: nat): (r: map<nat, nat>)
    requires i <= |ts|
    ensures r.Keys <= m.Keys + Ids(ts)
    decreases |ts| - i
  {
    if i == |ts| then m
    else if ts[i].identifier in keep then RetainMap(v, ts, m, keep, i + 1)
    else
      var moved := Swapped(ts, i);
      assert forall j :: 0 <= j < |moved| ==> moved[j].identifier in Ids(ts) by {
        forall j | 0 <= j < |moved| ensures moved[j].identifier in Ids(ts) {
          var k := if j == i then |ts| - 1 else j;
          assert moved[j] == ts[k];
        }
      }
      assert ts[|ts| - 1].identifier in Ids(ts);
      RetainMap(v, moved, DropEntry(v, ts, m, i), keep, i)
  }

  /** One event of the batch. */
  function Apply(v: Variant, ts: seq<Touch>, m: map<nat, nat>, e: TouchEvent): (r: Tracked)
    ensures e.kind == TouchEnd || e.kind == TouchCancel ==>
              r.ok && forall j :: 0 <= j < |r.touches| ==> r.touches[j].identifier in Ids(e.touches)
    ensures (e.kind == TouchStart || e.kind == TouchMove) && r.ok ==>
              forall k :: 0 <= k < |e.touches| ==> e.touches[k].identifier in r.ids
  {
    if e.kind == TouchStart || e.kind == TouchMove then PutEach(ts, m, e.touches)
    else
      var keep := Ids(e.touches);
      Tracked(true, SwapRemove(ts, keep, 0), RetainMap(v, ts, m, keep, 0))
  }

  function Last(events: seq<TouchEvent>): TouchEvent
    requires events != []
  {
    events[|events| - 1]
  }

  /** The loop over the batch, stopping at a panic. */
  function Run(v: Variant, ts: seq<Touch>, m: map<nat, nat>, events: seq<TouchEvent>): (r: Tracked)
    ensures r.ok && events != [] && (Last(events).kind == TouchEnd || Last(events).kind == TouchCancel) ==>
              forall j :: 0 <= j < |r.touches| ==> r.touches[j].identifier in Ids(Last(events).touches)
    ensures !r.ok ==> exists k :: 0 <= k < |events| && (events[k].kind == TouchStart || events[k].kind == TouchMove)
    decreases |events|
  {
    if events == [] then Tracked(true, ts, m)
    else
      var r := Apply(v, ts, m, events[0]);
      if !r.ok then r else Run(v, r.touches, r.ids, events[1..])
  }

  /** The tracker. Its identifier map lives only for the duration of one `update`. */
  class TouchTracker {
    var touches: seq<Touch>

    /** `TouchTracker::new`. */
    constructor ()
      ensures touches == []
    {
      touches := [];
    }

    /**
     * `TouchTracker::update`: `ok` is false when an index write went past
     * the end, which panics; the touches are then as they were at that
     * moment.
     */
    method Update(events: seq<TouchEvent>) returns (ok: bool)
      modifies this
      ensures var r := Run(AsWritten, old(touches), IdMapOf(old(touches)), events);
              ok == r.ok && touches == r.touches
      ensures Distinct(old(touches)) ==> Distinct(touches)
    {
      ghost var ts0 := touches;
      var m := BuildIdMap(touches);
      var k := 0;
      while k < |events|
        invariant 0 <= k <= |events|
        invariant Run(AsWritten, ts0, IdMapOf(ts0), events) == Run(AsWritten, touches, m, events[k..])
      {
        var e := events[k];
        assert events[k..][0] == e && events[k..][1..] == events[k + 1..];
        if e.kind == TouchStart || e.kind == TouchMove {
          ok, m := PutTouches(m, e.touches);
          if !ok {
            if Distinct(ts0) {
              UpdateKeepsDistinct(ts0, events);
            }
            return;
          }
        } else {
          var keep := ListedIds(e.touches);
          m := RetainListed(m, keep);
        }
        k := k + 1;
      }
      ok := true;
      if Distinct(ts0) {
        UpdateKeepsDistinct(ts0, events);
      }
    }

    /** The touches of one TouchStart or TouchMove event. */
    method PutTouches(m0: map<nat, nat>, list: seq<Touch>) returns (ok: bool, m: map<nat, nat>)
      modifies this
      ensures var r := PutEach(old(touches), m0, list); ok == r.ok && touches == r.touches && m == r.ids
    {
      m := m0;
      var k := 0;
      while k < |list|
        invariant 0 <= k <= |list|
        invariant PutEach(old(touches), m0, list) == PutEach(touches, m, list[k..])
      {
        var t := list[k];
        assert list[k..][0] == t && list[k..][1..] == list[k + 1..];
        if t.identifier in m {
          var index := m[t.identifier];
          if index >= |touches| {
            return false, m;
          }
          touches := touches[index := t];
        } else {
          m := m[t.identifier := |touches|];
          touches := touches + [t];
        }
        k := k + 1;
      }
      ok := true;
    }

    /** The removal loop of one TouchEnd or TouchCancel event. */
    method RetainListed(m0: map<nat, nat>, keep: set<nat>) returns (m: map<nat, nat>)
      modifies this
      ensures touches == SwapRemove(old(touches), keep, 0)
      ensures m == RetainMap(AsWritten, old(touches), m0, keep, 0)
    {
      m := m0;
      var i := 0;
      while i < |touches|
        invariant 0 <= i <= |touches|
        invariant SwapRemove(old(touches), keep, 0) == SwapRemove(touches, keep, i)
        invariant RetainMap(AsWritten, old(touches), m0, keep, 0) == RetainMap(AsWritten, touches, m, keep, i)
        decreases |touches| - i
      {
        if touches[i].identifier !in keep {
          ghost var before, mb := touches, m;
          m := m - {touches[i].identifier};
          touches := touches[i := touches[|touches| - 1]];
          m := m[touches[i].identifier := i];
          touches := touches[..|touches| - 1];
          assert touches == Swapped(before, i) && m == DropEntry(AsWritten, before, mb, i);
        } else {
          i := i + 1;
        }
      }
    }
  }

  /** The first loop of `update`. */
  method BuildIdMap(ts: seq<Touch>) returns (m: map<nat, nat>)
    ensures m == IdMapOf(ts)
    ensures forall id :: id in m <==> id in Ids(ts)
    ensures forall id :: id in m ==> m[id] < |ts| && ts[m[id]].identifier == id
  {
    m := map[];
    for i := 0 to |ts|
      invariant m == IdMapOf(ts[..i])
    {
      assert ts[..i + 1][..i] == ts[..i];
      m := m[ts[i].identifier := i];
    }
    assert ts[..|ts|] == ts;
    IdMapLastWins(ts);
  }

  /** The `retain_set` of a TouchEnd or TouchCancel event. */
  method ListedIds(list: seq<Touch>) returns (keep: set<nat>)
    ensures forall id :: id in keep <==> exists j :: 0 <= j < |list| && list[j].identifier == id
    ensures keep == Ids(list)
  {
    keep := {};
    for k := 0 to |list|
      invariant keep == Ids(list[..k])
    {
      assert list[..k + 1] == list[..k] + [list[k]];
      keep := keep + {list[k].identifier};
    }
    assert list[..|list|] == list;
  }

  // ---------------------------------------------------------------------
  // What `update` keeps, as written
  // ---------------------------------------------------------------------

  /**
   * A TouchStart or TouchMove touch keeps every touch at its own index; a
   * tracked identifier is overwritten in place, keeping the length, and an
   * unmapped one is appended at the end.
   */
  lemma PutKeepsOwnIndex(ts: seq<Touch>, m: map<nat, nat>, t: Touch)
    requires OwnIndex(m, ts)
    ensures OwnIndex(Put(ts, m, t).ids, Put(ts, m, t).touches)
    ensures t.identifier in Ids(ts) ==> Put(ts, m, t) == Tracked(true, Upserted(ts, t), m)
    ensures t.identifier !in m ==> Put(ts, m, t).ok && Put(ts, m, t).touches == ts + [t]
  {
    OwnIndexDistinct(m, ts);
    if t.identifier in Ids(ts) {
      var j :| 0 <= j < |ts| && ts[j].identifier == t.identifier;
      assert m[t.identifier] == j;
      assert IndexOf(ts, t.identifier) == Some(j);
    }
  }

  lemma {:induction false} PutEachKeepsOwnIndex(ts: seq<Touch>, m: map<nat, nat>, list: seq<Touch>)
    requires OwnIndex(m, ts)
    ensures OwnIndex(PutEach(ts, m, list).ids, PutEach(ts, m, list).touches)
    decreases |list|
  {
    if list != [] {
      PutKeepsOwnIndex(ts, m, list[0]);
      var r := Put(ts, m, list[0]);
      if r.ok {
        PutEachKeepsOwnIndex(r.touches, r.ids, list[1..]);
      }
    }
  }

  /** One removal keeps every remaining touch at its own index, in both variants. */
  lemma DropEntryKeepsOwnIndex(v: Variant, ts: seq<Touch>, m: map<nat, nat>, i: nat)
    requires i < |ts| && OwnIndex(m, ts)
    ensures OwnIndex(DropEntry(v, ts, m, i), Swapped(ts, i))
  {
    OwnIndexDistinct(m, ts);
    var r := Swapped(ts, i);
    var m' := DropEntry(v, ts, m, i);
    forall j | 0 <= j < |r| ensures r[j].identifier in m' && m'[r[j].identifier] == j {
      if j != i {
        assert r[j] == ts[j];
        assert ts[j].identifier != ts[i].identifier && ts[j].identifier != ts[|ts| - 1].identifier;
      }
    }
  }

  lemma {:induction false} RetainKeepsOwnIndex(v: Variant, ts: seq<Touch>, m: map<nat, nat>, keep: set<nat>, i: nat)
    requires i <= |ts| && OwnIndex(m, ts)
    ensures OwnIndex(RetainMap(v, ts, m, keep, i), SwapRemove(ts, keep, i))
    decreases |ts| - i
  {
    if i < |ts| {
      if ts[i].identifier in keep {
        RetainKeepsOwnIndex(v, ts, m, keep, i + 1);
      } else {
        DropEntryKeepsOwnIndex(v, ts, m, i);
        RetainKeepsOwnIndex(v, Swapped(ts, i), DropEntry(v, ts, m, i), keep, i);
      }
    }
  }

  /** Whatever the batch, every tracked touch keeps its own index in the map, up to a panic. */
  lemma {:induction false} RunKeepsOwnIndex(v: Variant, ts: seq<Touch>, m: map<nat, nat>, events: seq<TouchEvent>)
    requires OwnIndex(m, ts)
    ensures OwnIndex(Run(v, ts, m, events).ids, Run(v, ts, m, events).touches)
    decreases |events|
  {
    if events != [] {
      var e := events[0];
      if e.kind == TouchStart || e.kind == TouchMove {
        PutEachKeepsOwnIndex(ts, m, e.touches);
      } else {
        RetainKeepsOwnIndex(v, ts, m, Ids(e.touches), 0);
      }
      var r := Apply(v, ts, m, e);
      if r.ok {
        RunKeepsOwnIndex(v, r.touches, r.ids, events[1..]);
      }
    }
  }

  /**
   * Identifiers distinct on entry stay distinct through the whole batch, and
   * every identifier still tracked maps to its own index.
   */
  lemma UpdateKeepsDistinct(ts: seq<Touch>, events: seq<TouchEvent>)
    requires Distinct(ts)
    ensures var r := Run(AsWritten, ts, IdMapOf(ts), events);
            Distinct(r.touches) && OwnIndex(r.ids, r.touches)
  {
    IdMapExact(ts);
    RunKeepsOwnIndex(AsWritten, ts, IdMapOf(ts), events);
    var r := Run(AsWritten, ts, IdMapOf(ts), events);
    OwnIndexDistinct(r.ids, r.touches);
  }

  /**
   * Removing the last touch re-inserts its identifier, mapped to the new
   * length: an index one past the end, for an identifier no longer tracked.
   */
  lemma StaleEntry(ts: seq<Touch>, m: map<nat, nat>, i: nat)
    requires 0 < |ts| && i == |ts| - 1
    ensures var m' := DropEntry(AsWritten, ts, m, i);
            ts[i].identifier in m' && m'[ts[i].identifier] == |Swapped(ts, i)|
    ensures Distinct(ts) ==> ts[i].identifier !in Ids(Swapped(ts, i))
  {
  }

  /**
   * Each touch survives the removal loop as many times as it was there when
   * its identifier is listed, and not at all otherwise: the order may change,
   * but no survivor's data does.
   */
  lemma {:induction false} SwapRemoveCounts(ts: seq<Touch>, keep: set<nat>, i: nat)
    requires i <= |ts| && forall j :: 0 <= j < i ==> ts[j].identifier in keep
    ensures forall t :: multiset(SwapRemove(ts, keep, i))[t] == if t.identifier in keep then multiset(ts)[t] else 0
    decreases |ts| - i
  {
    if i == |ts| {
      forall t: Touch | t.identifier !in keep ensures t !in multiset(ts) {
        assert forall j :: 0 <= j < |ts| ==> ts[j] != t;
      }
    } else if ts[i].identifier in keep {
      SwapRemoveCounts(ts, keep, i + 1);
    } else {
      var r := Swapped(ts, i);
      SwapRemoveCounts(r, keep, i);
    }
  }

  /**
   * After a TouchEnd or TouchCancel event the touches are exactly the
   * earlier ones whose identifiers the event lists; nothing is added.
   */
  lemma EndKeepsListed(ts: seq<Touch>, keep: set<nat>)
    ensures forall t :: t in SwapRemove(ts, keep, 0) <==> t in ts && t.identifier in keep
    ensures Ids(SwapRemove(ts, keep, 0)) == Ids(ts) * keep
  {
    var r := SwapRemove(ts, keep, 0);
    SwapRemoveMembers(ts, keep);
    forall id ensures id in Ids(r) <==> id in Ids(ts) && id in keep {
      if id in Ids(r) {
        var j :| 0 <= j < |r| && r[j].identifier == id;
        assert r[j] in r;
      }
      if id in Ids(ts) && id in keep {
        var j :| 0 <= j < |ts| && ts[j].identifier == id;
        assert ts[j] in r;
        var k :| 0 <= k < |r| && r[k] == ts[j];
      }
    }
  }

  /** The counts of `SwapRemoveCounts`, read as membership. */
  lemma SwapRemoveMembers(ts: seq<Touch>, keep: set<nat>)
    ensures forall t :: t in SwapRemove(ts, keep, 0) <==> t in ts && t.identifier in keep
  {
    var r := SwapRemove(ts, keep, 0);
    SwapRemoveCounts(ts, keep, 0);
    forall t ensures t in r <==> t in ts && t.identifier in keep {
      assert t in r <==> t in multiset(r);
      assert t in ts <==> t in multiset(ts);
    }
  }

  // ---------------------------------------------------------------------
  // The stale entry, and the corrected bookkeeping
  // ---------------------------------------------------------------------

  /** The first index of an identifier. */
  function IndexOf(ts: seq<Touch>, id: nat): (r: Option<nat>)
    ensures r.Some? ==> r.value < |ts| && ts[r.value].identifier == id
                        && forall j :: 0 <= j < r.value ==> ts[j].identifier != id
    ensures r.None? <==> id !in Ids(ts)
    decreases |ts|
  {
    if ts == [] then None
    else if ts[0].identifier == id then Some(0)
    else
      assert forall j :: 1 <= j < |ts| ==> ts[j] == ts[1..][j - 1];
      match IndexOf(ts[1..], id)
      case None => None
      case Some(j) => Some(j + 1)
  }

  /** The intended effect of one TouchStart or TouchMove touch: replace the touch with its identifier, or append it. */
  function Upserted(ts: seq<Touch>, t: Touch): (r: seq<Touch>)
    ensures t in r && |ts| <= |r| <= |ts| + 1
    ensures forall j :: 0 <= j < |ts| && ts[j].identifier != t.identifier ==> r[j] == ts[j]
  {
    match IndexOf(ts, t.identifier)
    case Some(j) => assert ts[j := t][j] == t; ts[j := t]
    case None => ts + [t]
  }

  function UpsertedAll(ts: seq<Touch>, list: seq<Touch>): seq<Touch>
    decreases |list|
  {
    if list == [] then ts else UpsertedAll(Upserted(ts, list[0]), list[1..])
  }

  /** The intended effect of a batch, with no identifier map: upsert, or keep the listed touches. */
  function Reference(ts: seq<Touch>, events: seq<TouchEvent>): (r: seq<Touch>)
    ensures events != [] && (Last(events).kind == TouchEnd || Last(events).kind == TouchCancel) ==>
              forall j :: 0 <= j < |r| ==> r[j].identifier in Ids(Last(events).touches)
    decreases |events|
  {
    if events == [] then ts
    else
      var e := events[0];
      var next := if e.kind == TouchStart || e.kind == TouchMove then UpsertedAll(ts, e.touches)
                  else SwapRemove(ts, Ids(e.touches), 0);
      Reference(next, events[1..])
  }

  /** With an exact map, a touch is upserted and the map stays exact. */
  lemma PutKeepsExact(ts: seq<Touch>, m: map<nat, nat>, t: Touch)
    requires Exact(m, ts)
    ensures var r := Put(ts, m, t); r.ok && r.touches == Upserted(ts, t) && Exact(r.ids, r.touches)
  {
    OwnIndexDistinct(m, ts);
    PutKeepsOwnIndex(ts, m, t);
    if t.identifier in m {
      var k := m[t.identifier];
      assert ts[k].identifier == t.identifier;
      assert t.identifier in Ids(ts);
    } else {
      assert t.identifier !in Ids(ts);
    }
  }

  lemma {:induction false} PutEachKeepsExact(ts: seq<Touch>, m: map<nat, nat>, list: seq<Touch>)
    requires Exact(m, ts)
    ensures var r := PutEach(ts, m, list); r.ok && r.touches == UpsertedAll(ts, list) && Exact(r.ids, r.touches)
    decreases |list|
  {
    if list != [] {
      PutKeepsExact(ts, m, list[0]);
      var r := Put(ts, m, list[0]);
      PutEachKeepsExact(r.touches, r.ids, list[1..]);
    }
  }

  /** The corrected removal keeps the map exact. */
  lemma DropEntryKeepsExact(ts: seq<Touch>, m: map<nat, nat>, i: nat)
    requires i < |ts| && Exact(m, ts)
    ensures Exact(DropEntry(Corrected, ts, m, i), Swapped(ts, i))
  {
    DropEntryKeepsOwnIndex(Corrected, ts, m, i);
    OwnIndexDistinct(m, ts);
    var r := Swapped(ts, i);
    var last := |ts| - 1;
    var m' := DropEntry(Corrected, ts, m, i);
    forall id | id in m' ensures m'[id] < |r| && r[m'[id]].identifier == id {
      if !(i < last && id == ts[last].identifier) {
        var k := m[id];
        assert ts[k].identifier == id && id != ts[i].identifier;
        assert k != i && k != last;
        assert r[k] == ts[k];
      }
    }
  }

  lemma {:induction false} RetainKeepsExact(ts: seq<Touch>, m: map<nat, nat>, keep: set<nat>, i: nat)
    requires i <= |ts| && Exact(m, ts)
    ensures Exact(RetainMap(Corrected, ts, m, keep, i), SwapRemove(ts, keep, i))
    decreases |ts| - i
  {
    if i < |ts| {
      if ts[i].identifier in keep {
        RetainKeepsExact(ts, m, keep, i + 1);
      } else {
        DropEntryKeepsExact(ts, m, i);
        RetainKeepsExact(Swapped(ts, i), DropEntry(Corrected, ts, m, i), keep, i);
      }
    }
  }

  /** With the corrected removal, an exact map stays exact, nothing panics, and the touches are the reference's. */
  lemma {:induction false} CorrectedRunIsReference(ts: seq<Touch>, m: map<nat, nat>, events: seq<TouchEvent>)
    requires Exact(m, ts)
    ensures var r := Run(Corrected, ts, m, events); r.ok && r.touches == Reference(ts, events) && Exact(r.ids, r.touches)
    decreases |events|
  {
    if events != [] {
      var e := events[0];
      if e.kind == TouchStart || e.kind == TouchMove {
        PutEachKeepsExact(ts, m, e.touches);
      } else {
        RetainKeepsExact(ts, m, Ids(e.touches), 0);
      }
      var r := Apply(Corrected, ts, m, e);
      CorrectedRunIsReference(r.touches, r.ids, events[1..]);
    }
  }

  /** The corrected `update`, from distinct identifiers: it never panics and does what the reference does. */
  lemma CorrectedUpdateIsReference(ts: seq<Touch>, events: seq<TouchEvent>)
    requires Distinct(ts)
    ensures var r := Run(Corrected, ts, IdMapOf(ts), events); r.ok && r.touches == Reference(ts, events)
  {
    IdMapExact(ts);
    CorrectedRunIsReference(ts, IdMapOf(ts), events);
  }

  /** A TouchEnd listing nothing, on a single touch: the touch goes, and its identifier stays mapped to 0. */
  lemma EndOfOnlyTouch(a: Touch)
    ensures Apply(AsWritten, [a], IdMapOf([a]), TouchEvent(TouchEnd, [])) == Tracked(true, [], map[a.identifier := 0])
    ensures SwapRemove([a], Ids([]), 0) == []
  {
    var m := map[a.identifier := 0];
    assert IdMapOf([a]) == m by {
      assert [a][..0] == [];
    }
    assert Ids([]) == {};
    assert SwapRemove([a], {}, 0) == [] by {
      assert Swapped([a], 0) == [];
    }
    assert RetainMap(AsWritten, [a], m, {}, 0) == m by {
      assert DropEntry(AsWritten, [a], m, 0) == m;
    }
  }

  /**
   * As written, a touch that ends alone leaves a stale entry; a TouchMove of
   * the same identifier in the same batch then writes one past the end and
   * panics, where the reference tracks the touch again.
   */
  lemma StaleEntryPanics(a: Touch)
    ensures var batch := [TouchEvent(TouchEnd, []), TouchEvent(TouchMove, [a])];
            !Run(AsWritten, [a], IdMapOf([a]), batch).ok && Reference([a], batch) == [a]
  {
    var m := map[a.identifier := 0];
    EndOfOnlyTouch(a);
    var batch := [TouchEvent(TouchEnd, []), TouchEvent(TouchMove, [a])];
    var rest := [TouchEvent(TouchMove, [a])];
    assert batch[0] == TouchEvent(TouchEnd, []) && batch[1..] == rest && rest[1..] == [];
    assert Run(AsWritten, [a], IdMapOf([a]), batch) == Run(AsWritten, [], m, rest);
    assert PutEach([], m, [a]) == Put([], m, a) == Tracked(false, [], m);
    assert Apply(AsWritten, [], m, rest[0]) == Tracked(false, [], m);
    assert Reference([a], batch) == Reference([], rest);
    assert UpsertedAll([], [a]) == Upserted([], a) == [a];
    assert Reference([], rest) == Reference([a], []);
  }

  /**
   * And when another touch starts in between, the stale entry points at it:
   * the TouchMove silently overwrites the new touch, which is lost.
   */
  lemma StaleEntryOverwrites(a: Touch, b: Touch)
    requires a.identifier != b.identifier
    ensures var batch := [TouchEvent(TouchEnd, []), TouchEvent(TouchStart, [b]), TouchEvent(TouchMove, [a])];
            var r := Run(AsWritten, [a], IdMapOf([a]), batch);
            r.ok && r.touches == [a] && Reference([a], batch) == [b, a]
  {
    var m := map[a.identifier := 0];
    var m2 := m[b.identifier := 0];
    EndOfOnlyTouch(a);
    var batch := [TouchEvent(TouchEnd, []), TouchEvent(TouchStart, [b]), TouchEvent(TouchMove, [a])];
    var rest := [TouchEvent(TouchStart, [b]), TouchEvent(TouchMove, [a])];
    var last := [TouchEvent(TouchMove, [a])];
    assert batch[0] == TouchEvent(TouchEnd, []) && batch[1..] == rest && rest[1..] == last && last[1..] == [];
    assert Run(AsWritten, [a], IdMapOf([a]), batch) == Run(AsWritten, [], m, rest);
    StartAfterStale(a, b);
    assert Run(AsWritten, [], m, rest) == Run(AsWritten, [b], m2, last);
    assert Run(AsWritten, [b], m2, last) == Run(AsWritten, [a], m2, []);
    ReferenceAfterEnd(a, b);
    assert Reference([a], batch) == Reference([], rest);
    assert Reference([], rest) == Reference([b], last);
    assert Reference([b], last) == Reference([b, a], []);
  }

  lemma StartAfterStale(a: Touch, b: Touch)
    requires a.identifier != b.identifier
    ensures var m := map[a.identifier := 0];
            PutEach([], m, [b]) == Tracked(true, [b], m[b.identifier := 0])
            && PutEach([b], m[b.identifier := 0], [a]) == Tracked(true, [a], m[b.identifier := 0])
  {
    var m := map[a.identifier := 0];
    var m2 := m[b.identifier := 0];
    assert [b][1..] == [] && [a][1..] == [];
    assert Put([], m, b) == Tracked(true, [b], m2);
    assert Put([b], m2, a) == Tracked(true, [a], m2);
  }

  lemma ReferenceAfterEnd(a: Touch, b: Touch)
    requires a.identifier != b.identifier
    ensures UpsertedAll([], [b]) == [b] && UpsertedAll([b], [a]) == [b, a]
  {
    assert [b][1..] == [] && [a][1..] == [];
    assert Upserted([], b) == [b];
    assert IndexOf([b], a.identifier) == None;
    assert Upserted([b], a) == [b, a];
  }

  // ---------------------------------------------------------------------
  // The keyboard state
  // ---------------------------------------------------------------------

  /**
   * `KeyboardState`: the set of keys held down. The key is a `KeyCode` in
   * one front end and the DOM key string in the other.
   */
  class KeyboardState<K(==)> {
    var state: set<K>

    constructor ()
      ensures state == {}
    {
      state := {};
    }

    /** The `keydown` listener. */
    method KeyDown(key: K)
      modifies this
      ensures state == old(state) + {key}
      ensures IsDown(key) && forall k :: k != key ==> (IsDown(k) <==> k in old(state))
    {
      state := state + {key};
    }

    /** The `keyup` listener. */
    method KeyUp(key: K)
      modifies this
      ensures state == old(state) - {key}
      ensures !IsDown(key) && forall k :: k != key ==> (IsDown(k) <==> k in old(state))
    {
      state := state - {key};
    }

    /** `is_down`. */
    predicate IsDown(key: K)
      reads this
    {
      key in state
    }
  }

  datatype KeyEvent<K> = Pressed(key: K) | Released(key: K)

  /** The keys held after the listeners have seen `events`, in order. */
  function Held<K>(s: set<K>, events: seq<KeyEvent<K>>): (r: set<K>)
    ensures forall k :: k in r ==> k in s || exists j :: 0 <= j < |events| && events[j] == Pressed(k)
    ensures forall k :: k in s && k !in r ==> exists j :: 0 <= j < |events| && events[j] == Released(k)
    decreases |events|
  {
    if events == [] then s
    else
      var before := Held(s, events[..|events| - 1]);
      match events[|events| - 1]
      case Pressed(k) => before + {k}
      case Released(k) => before - {k}
  }

  /** The last event about a key, if any. */
  function LastAbout<K(==)>(events: seq<KeyEvent<K>>, k: K): (r: Option<KeyEvent<K>>)
    ensures r.Some? ==> r.value.key == k && r.value in events
    ensures r.None? ==> forall j :: 0 <= j < |events| ==> events[j].key != k
    decreases |events|
  {
    if events == [] then None
    else if events[|events| - 1].key == k then Some(events[|events| - 1])
    else LastAbout(events[..|events| - 1], k)
  }

  /** A key is held exactly when the last event about it pressed it, or when there was none and it was held before. */
  lemma {:induction false} LastEventDecides<K>(s: set<K>, events: seq<KeyEvent<K>>, k: K)
    ensures k in Held(s, events) <==> match LastAbout(events, k) case None => k in s case Some(e) => e.Pressed?
    decreases |events|
  {
    if events != [] {
      LastEventDecides(s, events[..|events| - 1], k);
    }
  }
}
