/**
 * The BMS side's scheduler (bms/BmsService.kt). Once per tick it brings
 * the table of open connections in line with the configured packs, polls
 * every connected pack, drops the packs whose poll failed, and hands the
 * snapshots to the listeners. `writeSoc` forwards a new state of charge
 * to the connections of one logical pack.
 *
 * The persistence store is a parameter, in two parts: the entries it
 * lists under `daly_bms.devices`, and a map for single lookups with a
 * default. The serial ports are a map from USB id to what that port will
 * deliver. A USB id without an entry is a port that cannot be found or
 * opened.
 */
module BmsService {
  import opened Wrappers
  import opened ByteUtils
  import opened BmsTypes
  import opened Collections
  import opened DalyWire
  import opened DalyFrames
  import opened DalyConnection

  // ---------------------------------------------------------------------
  // Settings

  /** `persistenceService[key, default]`: the stored value, or the default when there is none. */
  function Setting(settings: map<string, string>, key: string, default: string): string {
    if key in settings then settings[key] else default
  }

  /** The range of a Kotlin `Int`. */
  const IntMin: int := -0x8000_0000
  const IntMax: int := 0x7fff_ffff

  predicate IsDigit(c: char) {
    '0' <= c <= '9'
  }

  predicate AllDigits(s: string) {
    forall i :: 0 <= i < |s| ==> IsDigit(s[i])
  }

  /** The value of a string of decimal digits, most significant first. */
  function DigitsValue(s: string): nat
    requires AllDigits(s)
  {
    if s == [] then 0
    else DigitsValue(s[..|s| - 1]) * 10 + (s[|s| - 1] as int - '0' as int)
  }

  /**
   * `toInt()`: an optional sign, then at least one decimal digit, with the
   * value in the range of an `Int`. None where `toInt` throws.
   */
  function ParseInt(s: string): (r: Option<int>)
    ensures r.Some? ==> IntMin <= r.value <= IntMax
    ensures r.Some? ==> exists i :: 0 <= i < |s| && IsDigit(s[i])
  {
    var signed := |s| > 0 && (s[0] == '-' || s[0] == '+');
    var digits := if signed then s[1..] else s;
    if digits == [] || !AllDigits(digits) then None
    else
      var magnitude := DigitsValue(digits);
      var v: int := if signed && s[0] == '-' then -(magnitude as int) else magnitude;
      if IntMin <= v <= IntMax then Some(v) else None
  }

  /** The decimal digits of a natural number, most significant first, without leading zeros. */
  function ShowNat(n: nat): (s: string)
    ensures |s| > 0 && AllDigits(s)
    decreases n
  {
    var last := [('0' as int + n % 10) as char];
    if n < 10 then last else ShowNat(n / 10) + last
  }

  /** Reading the digits back gives the number. */
  lemma {:induction false} DigitsOfShowNat(n: nat)
    ensures DigitsValue(ShowNat(n)) == n
    decreases n
  {
    var s := ShowNat(n);
    assert s[|s| - 1] as int - '0' as int == n % 10;
    if n >= 10 {
      DigitsOfShowNat(n / 10);
      assert s[..|s| - 1] == ShowNat(n / 10);
    }
  }

  /** `toInt` reads back every `Int` written in decimal: the setting round-trips. */
  lemma ParseShowNat(n: nat)
    ensures n <= IntMax ==> ParseInt(ShowNat(n)) == Some(n)
    ensures n <= -IntMin ==> ParseInt("-" + ShowNat(n)) == Some(-(n as int))
  {
    DigitsOfShowNat(n);
    var s := ShowNat(n);
    assert s[0] != '-' && s[0] != '+' by {
      assert IsDigit(s[0]);
    }
    assert ("-" + s)[1..] == s;
  }

  /** `toInt` refuses a string with no digit in it, such as the empty string. */
  lemma ParseNeedsDigits(s: string)
    requires forall i :: 0 <= i < |s| ==> !IsDigit(s[i])
    ensures ParseInt(s) == None
  {
  }

  const NumberOfCellsKey := "daly_bms.numberOfCells"

  /** `numberOfCells()`: the stored cell count, "16" when none is stored; None where `toInt` throws. */
  function NumberOfCells(settings: map<string, string>): Option<int> {
    ParseInt(Setting(settings, NumberOfCellsKey, "16"))
  }

  /** Without a stored cell count, a pack has 16 cells. */
  lemma NumberOfCellsDefault(settings: map<string, string>)
    requires NumberOfCellsKey !in settings
    ensures NumberOfCells(settings) == Some(16)
  {
    ParseShowNat(16);
    assert ShowNat(16) == "16";
  }

  // ---------------------------------------------------------------------
  // The configured packs

  const DevicesPrefix := "daly_bms.devices."

  /** `pattern` occurs in `s` at position `i`. */
  predicate OccursAt(pattern: string, s: string, i: nat) {
    i + |pattern| <= |s| && s[i..i + |pattern|] == pattern
  }

  /** `pattern` occurs in `s` at some position. */
  predicate Occurs(pattern: string, s: string) {
    exists i: nat :: i <= |s| && OccursAt(pattern, s, i)
  }

  /**
   * `s.replace(pattern, "")`: every occurrence of `pattern` removed,
   * scanning from the left, without overlaps.
   */
  function ReplaceAll(s: string, pattern: string): (r: string)
    requires pattern != []
    ensures |r| <= |s|
    decreases |s|
  {
    if |s| < |pattern| then s
    else if s[..|pattern|] == pattern then ReplaceAll(s[|pattern|..], pattern)
    else [s[0]] + ReplaceAll(s[1..], pattern)
  }

  /** A string without the pattern is left as it is. */
  lemma {:induction false} ReplaceAllNoOccurrence(s: string, pattern: string)
    requires pattern != [] && !Occurs(pattern, s)
    ensures ReplaceAll(s, pattern) == s
    decreases |s|
  {
    if |s| >= |pattern| {
      assert s[0..0 + |pattern|] == s[..|pattern|];
      assert !OccursAt(pattern, s, 0);
      if !Occurs(pattern, s[1..]) {
        ReplaceAllNoOccurrence(s[1..], pattern);
        assert [s[0]] + s[1..] == s;
      } else {
        var i: nat :| i <= |s[1..]| && OccursAt(pattern, s[1..], i);
        assert i + |pattern| <= |s[1..]|;
        assert s[i + 1..i + 1 + |pattern|] == s[1..][i..i + |pattern|];
        assert OccursAt(pattern, s, i + 1);
      }
    }
  }

  /** A string holding the pattern comes out shorter. */
  lemma {:induction false} ReplaceAllShortens(s: string, pattern: string)
    requires pattern != [] && Occurs(pattern, s)
    ensures |ReplaceAll(s, pattern)| < |s|
    decreases |s|
  {
    var i: nat :| i <= |s| && OccursAt(pattern, s, i);
    assert i + |pattern| <= |s|;
    if s[..|pattern|] != pattern {
      assert i > 0;
      assert s[1..][i - 1..i - 1 + |pattern|] == s[i..i + |pattern|];
      assert OccursAt(pattern, s[1..], i - 1);
      ReplaceAllShortens(s[1..], pattern);
    }
  }

  /** The configured key of a device is its USB id behind the prefix, which comes off. */
  lemma StripDevicesPrefix(usbId: string)
    requires !Occurs(DevicesPrefix, usbId)
    ensures ReplaceAll(DevicesPrefix + usbId, DevicesPrefix) == usbId
  {
    var s := DevicesPrefix + usbId;
    assert s[..|DevicesPrefix|] == DevicesPrefix;
    assert s[|DevicesPrefix|..] == usbId;
    ReplaceAllNoOccurrence(usbId, DevicesPrefix);
  }

  /** `mapKeys { replace(prefix, "") }`: the entries under their stripped keys, in order. */
  function StrippedEntries(m: map<string, string>, order: seq<string>): (r: seq<(string, string)>)
    requires Ordered(m, order)
    ensures |r| == |order|
    ensures forall i :: 0 <= i < |order| ==> r[i] == (ReplaceAll(order[i], DevicesPrefix), m[order[i]])
  {
    seq(|order|, i requires 0 <= i < |order| => (ReplaceAll(order[i], DevicesPrefix), m[order[i]]))
  }

  const SettingsPrefix := "daly_bms.deviceSettings."

  /** The `BmsId` built for one device; None where the stored capacity is not a whole number. */
  function TargetOf(usbId: string, bmsId: string, settings: map<string, string>): (r: Option<BmsId>)
    ensures r.Some? ==> r.value.usbId == usbId && r.value.bmsId == bmsId
    ensures r.Some? <==> ParseInt(Setting(settings, SettingsPrefix + bmsId + ".capacity", "280")).Some?
  {
    var capacity := ParseInt(Setting(settings, SettingsPrefix + bmsId + ".capacity", "280"));
    if capacity.None? then None
    else Some(BmsId(
      usbId := usbId,
      bmsId := bmsId,
      displayName := Setting(settings, SettingsPrefix + bmsId + ".displayName", ""),
      capacity := capacity.value))
  }

  /** A pack without stored settings has no display name and a capacity of 280. */
  lemma TargetDefaults(usbId: string, bmsId: string, settings: map<string, string>)
    requires SettingsPrefix + bmsId + ".displayName" !in settings
    requires SettingsPrefix + bmsId + ".capacity" !in settings
    ensures TargetOf(usbId, bmsId, settings) == Some(BmsId(usbId, bmsId, "", 280))
  {
    DefaultCapacity();
  }

  /** The default capacity parses as 280. */
  lemma DefaultCapacity()
    ensures ParseInt("280") == Some(280)
  {
    assert "280"[..2] == "28" && "28"[..1] == "2" && "2"[..0] == [];
    assert DigitsValue("280") == 280;
  }

  /** The `map` to `BmsId`s over the stripped keys; it throws when a capacity does not parse. */
  function Targets(m: map<string, string>, keys: seq<string>, settings: map<string, string>): (r: Outcome<seq<BmsId>>)
    requires forall i :: 0 <= i < |keys| ==> keys[i] in m
  {
    if forall i :: 0 <= i < |keys| ==> TargetOf(keys[i], m[keys[i]], settings).Some? then
      Ok(seq(|keys|, i requires 0 <= i < |keys| => TargetOf(keys[i], m[keys[i]], settings).value))
    else Fail("a configured capacity is not a number")
  }

  /**
   * Step 1 of `tickLocked`: the configured devices, as `toMap()`, then
   * `mapKeys`, then `map` to `BmsId`s. Their USB ids are distinct, so no
   * pack is listed twice.
   */
  function TargetDevices(entries: seq<(string, string)>, settings: map<string, string>): (r: Outcome<seq<BmsId>>)
    ensures r.Ok? ==> forall i, j :: 0 <= i < j < |r.value| ==> r.value[i].usbId != r.value[j].usbId
  {
    var (configured, keys) := PutAll(map[], [], entries);
    var (devices, usbIds) := PutAll(map[], [], StrippedEntries(configured, keys));
    Targets(devices, usbIds, settings)
  }

  /** Every configured device key gives a target with the key, stripped, as its USB id. */
  lemma TargetDevicesCover(entries: seq<(string, string)>, settings: map<string, string>, k: nat)
    requires k < |entries| && TargetDevices(entries, settings).Ok?
    ensures exists t :: t in TargetDevices(entries, settings).value && t.usbId == ReplaceAll(entries[k].0, DevicesPrefix)
  {
    var (configured, keys) := PutAll(map[], [], entries);
    var stripped := StrippedEntries(configured, keys);
    var i := KeyPosition(map[], [], entries, k);
    var j := KeyPosition(map[], [], stripped, i);
    var (devices, usbIds) := PutAll(map[], [], stripped);
    assert usbIds[j] == ReplaceAll(entries[k].0, DevicesPrefix);
    assert TargetDevices(entries, settings).value == Targets(devices, usbIds, settings).value;
    assert Targets(devices, usbIds, settings).value[j].usbId == usbIds[j];
  }

  /** The key of the `k`-th pair has a place in the order of the map the pairs build. */
  lemma KeyPosition<V>(m: map<string, V>, order: seq<string>, pairs: seq<(string, V)>, k: nat) returns (i: nat)
    requires Ordered(m, order) && k < |pairs|
    ensures i < |PutAll(m, order, pairs).1| && PutAll(m, order, pairs).1[i] == pairs[k].0
  {
    PutAllKeys(m, order, pairs, pairs[k].0);
    var r := PutAll(m, order, pairs);
    assert pairs[k].0 in r.1;
    i :| 0 <= i < |r.1| && r.1[i] == pairs[k].0;
  }

  // ---------------------------------------------------------------------
  // The table of connections

  /** What the scheduler can tell of one open connection: its serial port and its cell count. */
  datatype Link = Link(port: Port, numberOfCells: int)

  /** The `connected` map, with its keys in insertion order. */
  datatype Table = Table(links: map<BmsId, Link>, order: seq<BmsId>)

  /** A connection just opened on `port`: the constructor's read has drained what was pending. */
  function Opened(port: seq<Event>, numberOfCells: int): Link {
    Link(Port(Drain(port, RxBufSize).1, []), numberOfCells)
  }

  /** `closeToBeDisconnected`: the listed packs leave the table; the others keep their connections. */
  function Drop(t: Table, ids: seq<BmsId>): (r: Table)
    requires Ordered(t.links, t.order)
    ensures Ordered(r.links, r.order)
    ensures forall id :: id in r.links ==> id in t.links && id !in ids && r.links[id] == t.links[id]
    ensures forall id :: id in t.links && id !in ids ==> id in r.links
    ensures r.order == Without(t.order, Elems(ids))
  {
    var (links, order) := RemoveAll(t.links, t.order, ids);
    Table(links, order)
  }

  /**
   * The connect loop: a listed pack gets a fresh connection when its port
   * can be opened and the cell count is a number; otherwise it is skipped.
   */
  function Connect(t: Table, todo: seq<BmsId>, ports: map<string, seq<Event>>, cells: Option<int>): (r: Table)
    requires Ordered(t.links, t.order)
    ensures Ordered(r.links, r.order)
    decreases |todo|
  {
    if todo == [] then t
    else
      var d := todo[0];
      var t' :=
        if d.usbId in ports && cells.Some? then
          var (links, order) := Put(t.links, t.order, d, Opened(ports[d.usbId], cells.value));
          Table(links, order)
        else t;
      Connect(t', todo[1..], ports, cells)
  }

  /** A pack can be connected: its port opens and the cell count parses. */
  predicate Connectable(id: BmsId, ports: map<string, seq<Event>>, cells: Option<int>) {
    id.usbId in ports && cells.Some?
  }

  /**
   * After the connect loop, a pack is in the table iff it was before or it
   * was listed and could be connected; a connected listed pack holds a
   * fresh connection, every other keeps its own.
   */
  lemma {:induction false} ConnectLinks(t: Table, todo: seq<BmsId>, ports: map<string, seq<Event>>, cells: Option<int>, id: BmsId)
    requires Ordered(t.links, t.order)
    ensures var r := Connect(t, todo, ports, cells);
      && (id in r.links <==> id in t.links || (id in todo && Connectable(id, ports, cells)))
      && (id in todo && Connectable(id, ports, cells) ==> r.links[id] == Opened(ports[id.usbId], cells.value))
      && (id !in todo && id in t.links ==> r.links[id] == t.links[id])
    decreases |todo|
  {
    if todo != [] {
      var d := todo[0];
      var t' :=
        if Connectable(d, ports, cells) then
          var (links, order) := Put(t.links, t.order, d, Opened(ports[d.usbId], cells.value));
          Table(links, order)
        else t;
      ConnectLinks(t', todo[1..], ports, cells, id);
      assert todo == [d] + todo[1..];
      assert id in todo <==> id == d || id in todo[1..];
    }
  }

  /** What one `readData` gives on each connection: the snapshot or None, and the port after it. */
  type Reads = map<BmsId, (Option<BmsData>, Port)>

  /** Every snapshot read for a pack names that pack. */
  predicate OwnIds(got: Reads) {
    forall id :: id in got && got[id].0.Some? ==> got[id].0.value.bmsId == id
  }

  /**
   * The reads of every connection of the table. The connections are
   * distinct objects, so a read on one leaves the others as they were and
   * the order of the reads does not matter.
   */
  function ReadAll(t: Table, now: DateTime, timestamp: real): (r: Reads)
    ensures r.Keys == t.links.Keys && OwnIds(r)
  {
    map id | id in t.links :: ReadDataSpec(t.links[id].port, id, t.links[id].numberOfCells, now, timestamp)
  }

  /** The poll of `ids`, in order: the snapshots that came, and the packs whose read gave nothing. */
  function Poll(ids: seq<BmsId>, got: Reads): (r: (seq<BmsData>, seq<BmsId>))
    requires forall i :: 0 <= i < |ids| ==> ids[i] in got
    ensures |r.0| + |r.1| == |ids|
    decreases |ids|
  {
    if ids == [] then ([], [])
    else
      var (collected, failed) := Poll(ids[1..], got);
      var d := got[ids[0]].0;
      if d.Some? then ([d.value] + collected, failed) else (collected, [ids[0]] + failed)
  }

  /** The table with the port of every connection in `touched` moved on to where its exchange left it. */
  function Advance<R>(t: Table, touched: set<BmsId>, outcome: map<BmsId, (R, Port)>): (r: Table)
    requires Ordered(t.links, t.order) && touched <= outcome.Keys
    ensures Ordered(r.links, r.order) && r.order == t.order && r.links.Keys == t.links.Keys
  {
    Table(map id | id in t.links :: if id in touched then t.links[id].(port := outcome[id].1) else t.links[id], t.order)
  }

  /** The packs whose snapshots these are, in order. */
  function Ids(ds: seq<BmsData>): (r: seq<BmsId>)
    ensures |r| == |ds| && forall i :: 0 <= i < |ds| ==> r[i] == ds[i].bmsId
  {
    seq(|ds|, i requires 0 <= i < |ds| => ds[i].bmsId)
  }

  /** The poll lists a pack as failed exactly when its read gives nothing. */
  lemma {:induction false} PollFailed(ids: seq<BmsId>, got: Reads)
    requires forall i :: 0 <= i < |ids| ==> ids[i] in got
    ensures var failed := Poll(ids, got).1;
      && (forall id :: id in failed ==> id in ids && got[id].0.None?)
      && (forall i :: 0 <= i < |ids| && got[ids[i]].0.None? ==> ids[i] in failed)
    decreases |ids|
  {
    if ids != [] {
      var tail := ids[1..];
      assert forall i :: 0 <= i < |tail| ==> tail[i] == ids[i + 1];
      PollFailed(tail, got);
    }
  }

  /** Every snapshot of `ds` is what the read of its own pack gave. */
  predicate ReadBack(ds: seq<BmsData>, got: Reads) {
    forall i :: 0 <= i < |ds| ==> ds[i].bmsId in got && got[ds[i].bmsId].0 == Some(ds[i])
  }

  /** Every snapshot the poll collects is what its own pack's read gave. */
  lemma {:induction false} PollSnapshots(ids: seq<BmsId>, got: Reads)
    requires forall i :: 0 <= i < |ids| ==> ids[i] in got
    requires OwnIds(got)
    ensures ReadBack(Poll(ids, got).0, got)
    decreases |ids|
  {
    if ids != [] {
      var tail := ids[1..];
      assert forall i :: 0 <= i < |tail| ==> tail[i] == ids[i + 1];
      PollSnapshots(tail, got);
      var collected := Poll(tail, got).0;
      var d := got[ids[0]].0;
      if d.Some? {
        var all := [d.value] + collected;
        assert Poll(ids, got).0 == all;
        forall i | 0 <= i < |all|
          ensures all[i].bmsId in got && got[all[i].bmsId].0 == Some(all[i])
        {
          if i > 0 {
            assert all[i] == collected[i - 1];
          }
        }
      } else {
        assert Poll(ids, got).0 == collected;
      }
    }
  }

  /** Over distinct packs, the snapshots come in the order of the packs, less the failed ones. */
  lemma {:induction false} PollOrder(ids: seq<BmsId>, got: Reads)
    requires forall i :: 0 <= i < |ids| ==> ids[i] in got
    requires forall i, j :: 0 <= i < j < |ids| ==> ids[i] != ids[j]
    requires OwnIds(got)
    ensures Ids(Poll(ids, got).0) == Without(ids, Elems(Poll(ids, got).1))
    decreases |ids|
  {
    if ids != [] {
      var id, tail := ids[0], ids[1..];
      assert forall i :: 0 <= i < |tail| ==> tail[i] == ids[i + 1] && tail[i] != id;
      PollOrder(tail, got);
      PollFailed(tail, got);
      var collected, failed := Poll(tail, got).0, Poll(tail, got).1;
      assert id !in tail && id !in failed;
      if got[id].0.Some? {
        PollKeeps(id, tail, collected, failed, got[id].0.value);
      } else {
        PollSkips(id, tail, collected, failed);
      }
    }
  }

  /** The order step of a pack whose read gave a snapshot. */
  lemma PollKeeps(id: BmsId, tail: seq<BmsId>, collected: seq<BmsData>, failed: seq<BmsId>, d: BmsData)
    requires id !in failed && d.bmsId == id
    requires Ids(collected) == Without(tail, Elems(failed))
    ensures Ids([d] + collected) == Without([id] + tail, Elems(failed))
  {
    assert Ids([d] + collected) == [id] + Ids(collected);
    assert ([id] + tail)[1..] == tail;
  }

  /** The order step of a pack whose read gave nothing. */
  lemma PollSkips(id: BmsId, tail: seq<BmsId>, collected: seq<BmsData>, failed: seq<BmsId>)
    requires id !in tail
    requires Ids(collected) == Without(tail, Elems(failed))
    ensures Ids(collected) == Without([id] + tail, Elems([id] + failed))
  {
    assert Elems([id] + failed) == {id} + Elems(failed);
    assert ([id] + tail)[1..] == tail;
    WithoutTwice(tail, {id}, Elems(failed));
    WithoutNone(tail, {id});
  }

  // ---------------------------------------------------------------------
  // One tick

  /** Step 2's `toBeDisconnected`: the connected packs that are no longer configured, in table order. */
  function Gone(t: Table, targets: seq<BmsId>): seq<BmsId> {
    Without(t.order, Elems(targets))
  }

  /**
   * Steps 1 and 2 on the table: the packs no longer configured leave it,
   * then every configured pack not in it gets one connection attempt.
   */
  function Reconciled(t: Table, targets: seq<BmsId>, ports: map<string, seq<Event>>, cells: Option<int>): (r: Table)
    requires Ordered(t.links, t.order)
    ensures Ordered(r.links, r.order)
  {
    var kept := Drop(t, Gone(t, targets));
    Connect(kept, Without(targets, kept.links.Keys), ports, cells)
  }

  /**
   * After steps 1 and 2, the table holds exactly the configured packs that
   * were connected or could be connected: the first keep their connection,
   * the others have a fresh one.
   */
  lemma ReconciledLinks(t: Table, targets: seq<BmsId>, ports: map<string, seq<Event>>, cells: Option<int>, id: BmsId)
    requires Ordered(t.links, t.order)
    ensures var r := Reconciled(t, targets, ports, cells);
      && (id in r.links <==> id in targets && (id in t.links || Connectable(id, ports, cells)))
      && (id in r.links && id in t.links ==> r.links[id] == t.links[id])
      && (id in r.links && id !in t.links ==> r.links[id] == Opened(ports[id.usbId], cells.value))
  {
    var kept := Drop(t, Gone(t, targets));
    var todo := Without(targets, kept.links.Keys);
    ConnectLinks(kept, todo, ports, cells, id);
    assert id in t.links && id !in targets ==> id in Gone(t, targets);
    assert id in kept.links ==> id in targets;
  }

  /** Steps 3 and 4 given the reads: the snapshots collected, and the table less the failed and the gone packs. */
  function Settle(t: Table, gone: seq<BmsId>, got: Reads): (r: (seq<BmsData>, Table))
    requires Ordered(t.links, t.order) && got.Keys == t.links.Keys
    ensures Ordered(r.1.links, r.1.order)
  {
    var (collected, failed) := Poll(t.order, got);
    (collected, Drop(Advance(t, t.links.Keys, got), gone + failed))
  }

  /** Step 4 keeps a pack exactly when its read gave a snapshot, with its connection moved on by that read. */
  lemma SettleKeys(t: Table, gone: seq<BmsId>, got: Reads)
    requires Ordered(t.links, t.order) && got.Keys == t.links.Keys
    requires forall i :: 0 <= i < |gone| ==> gone[i] !in t.links
    ensures var r := Settle(t, gone, got).1;
      && (forall id :: id in r.links <==> id in t.links && got[id].0.Some?)
      && (forall id :: id in r.links ==> r.links[id] == Link(got[id].1, t.links[id].numberOfCells))
  {
    PollFailed(t.order, got);
    var failed := Poll(t.order, got).1;
    forall id | id in t.links && got[id].0.None?
      ensures id in failed
    {
      var i :| 0 <= i < |t.order| && t.order[i] == id;
    }
  }

  /** The snapshots step 4 hands on are those of the packs left in the table, in table order. */
  lemma SettleOrder(t: Table, gone: seq<BmsId>, got: Reads)
    requires Ordered(t.links, t.order) && got.Keys == t.links.Keys && OwnIds(got)
    requires forall i :: 0 <= i < |gone| ==> gone[i] !in t.links
    ensures Ids(Settle(t, gone, got).0) == Settle(t, gone, got).1.order
  {
    var (collected, failed) := Poll(t.order, got);
    PollOrder(t.order, got);
    var kept := Without(t.order, Elems(failed));
    assert Elems(gone + failed) == Elems(failed) + Elems(gone);
    WithoutTwice(t.order, Elems(failed), Elems(gone));
    forall i | 0 <= i < |kept|
      ensures kept[i] !in Elems(gone)
    {
      assert kept[i] in t.order;
    }
    WithoutNone(kept, Elems(gone));
  }

  /**
   * After steps 3 and 4, a pack stays iff its read gave a snapshot, its
   * connection moved on by that read; the snapshots handed on are the
   * reads of exactly the packs that stay, in table order.
   */
  lemma SettleOutcome(t: Table, gone: seq<BmsId>, got: Reads)
    requires Ordered(t.links, t.order) && got.Keys == t.links.Keys && OwnIds(got)
    requires forall i :: 0 <= i < |gone| ==> gone[i] !in t.links
    ensures var (collected, r) := Settle(t, gone, got);
      && (forall id :: id in r.links <==> id in t.links && got[id].0.Some?)
      && (forall id :: id in r.links ==> r.links[id] == Link(got[id].1, t.links[id].numberOfCells))
      && Ids(collected) == r.order
      && ReadBack(collected, got)
  {
    SettleKeys(t, gone, got);
    SettleOrder(t, gone, got);
    PollSnapshots(t.order, got);
  }

  /** One `tickLocked` on the table: the snapshots handed to every listener, and the table after. */
  function TickSpec(t: Table, targets: seq<BmsId>, ports: map<string, seq<Event>>, cells: Option<int>,
                    now: DateTime, timestamp: real): (r: (seq<BmsData>, Table))
    requires Ordered(t.links, t.order)
    ensures Ordered(r.1.links, r.1.order)
  {
    var b := Reconciled(t, targets, ports, cells);
    Settle(b, Gone(t, targets), ReadAll(b, now, timestamp))
  }

  /**
   * A tick hands every listener the snapshots of exactly the packs left
   * connected, in table order; a pack is left connected iff it is
   * configured, it was connected or could be connected, and its read gave
   * a snapshot; and every snapshot is its own pack's read.
   */
  lemma TickOutcome(t: Table, targets: seq<BmsId>, ports: map<string, seq<Event>>, cells: Option<int>,
                    now: DateTime, timestamp: real, id: BmsId)
    requires Ordered(t.links, t.order)
    ensures var b := Reconciled(t, targets, ports, cells);
      var got := ReadAll(b, now, timestamp);
      var (sent, r) := TickSpec(t, targets, ports, cells, now, timestamp);
      && (id in b.links <==> id in targets && (id in t.links || Connectable(id, ports, cells)))
      && (id in r.links <==> id in b.links && got[id].0.Some?)
      && Ids(sent) == r.order
      && ReadBack(sent, got)
  {
    var b := Reconciled(t, targets, ports, cells);
    var got := ReadAll(b, now, timestamp);
    var gone := Gone(t, targets);
    ReconciledLinks(t, targets, ports, cells, id);
    forall i | 0 <= i < |gone|
      ensures gone[i] !in b.links
    {
      ReconciledLinks(t, targets, ports, cells, gone[i]);
    }
    SettleOutcome(b, gone, got);
  }

  // ---------------------------------------------------------------------
  // writeSoc

  /** What a WRITE_SOC exchange on each connection would give: whether it was acknowledged, and the port after it. */
  type Acks = map<BmsId, (bool, Port)>

  /** The exchange every connection of the table would make for `soc`. */
  function AckAll(t: Table, soc: int, now: DateTime): (r: Acks)
    ensures r.Keys == t.links.Keys
  {
    map id | id in t.links :: WriteSocSpec(t.links[id].port, soc, now)
  }

  /**
   * The `forEach` of `writeSoc` over `ids`, with `result` its variable so
   * far: the connections of pack `bmsId` are written in turn, the first
   * write that fails ends the call with an exception (None). Also gives
   * the packs whose connection was written, in order.
   */
  function SocWrites(ids: seq<BmsId>, bmsId: string, acks: Acks, result: bool): (r: (Option<bool>, seq<BmsId>))
    requires forall i :: 0 <= i < |ids| ==> ids[i] in acks
    ensures forall id :: id in r.1 ==> id in ids && id.bmsId == bmsId
    decreases |ids|
  {
    if ids == [] then (Some(result), [])
    else if ids[0].bmsId != bmsId then SocWrites(ids[1..], bmsId, acks, result)
    else if !acks[ids[0]].0 then (None, [ids[0]])
    else
      var (o, written) := SocWrites(ids[1..], bmsId, acks, true);
      (o, [ids[0]] + written)
  }

  /** A pack among `ids` whose logical id is `bmsId`. */
  predicate Matches(ids: seq<BmsId>, bmsId: string, i: int) {
    0 <= i < |ids| && ids[i].bmsId == bmsId
  }

  /**
   * `writeSoc` answers false iff no connection belongs to the pack, throws
   * iff one of them does not acknowledge, and otherwise answers true. Only
   * that pack's connections are written, and all of them unless one throws.
   */
  lemma {:induction false} SocWritesOutcome(ids: seq<BmsId>, bmsId: string, acks: Acks)
    requires forall i :: 0 <= i < |ids| ==> ids[i] in acks
    ensures var (o, written) := SocWrites(ids, bmsId, acks, false);
      && (o == Some(false) <==> forall i :: 0 <= i < |ids| ==> !Matches(ids, bmsId, i))
      && (o.None? <==> exists i :: Matches(ids, bmsId, i) && !acks[ids[i]].0)
      && (forall id :: id in written ==> id in ids && id.bmsId == bmsId)
      && (o.Some? ==> forall i :: Matches(ids, bmsId, i) ==> ids[i] in written)
  {
    SocWritesFrom(ids, bmsId, acks, false);
  }

  /** SocWritesOutcome for any value of the running result. */
  lemma {:induction false} SocWritesFrom(ids: seq<BmsId>, bmsId: string, acks: Acks, result: bool)
    requires forall i :: 0 <= i < |ids| ==> ids[i] in acks
    ensures var (o, written) := SocWrites(ids, bmsId, acks, result);
      && ((exists i :: Matches(ids, bmsId, i)) && o.Some? ==> o == Some(true))
      && ((forall i :: 0 <= i < |ids| ==> !Matches(ids, bmsId, i)) ==> o == Some(result))
      && (o.None? <==> exists i :: Matches(ids, bmsId, i) && !acks[ids[i]].0)
      && (o.Some? ==> forall i :: Matches(ids, bmsId, i) ==> ids[i] in written)
    decreases |ids|
  {
    if ids != [] {
      var tail := ids[1..];
      assert forall i :: 0 <= i < |tail| ==> tail[i] == ids[i + 1];
      assert forall i :: Matches(tail, bmsId, i) ==> Matches(ids, bmsId, i + 1);
      assert forall i :: 1 <= i && Matches(ids, bmsId, i) ==> Matches(tail, bmsId, i - 1);
      if ids[0].bmsId != bmsId {
        SocWritesFrom(tail, bmsId, acks, result);
      } else if acks[ids[0]].0 {
        SocWritesFrom(tail, bmsId, acks, true);
        assert Matches(ids, bmsId, 0);
      } else {
        assert Matches(ids, bmsId, 0);
      }
    }
  }

  /**
   * One pass of the `forEach` of `writeSoc` with `st` its state so far: the
   * answer (None once a write has thrown) and the packs written.
   */
  function SocStep(st: (Option<bool>, seq<BmsId>), id: BmsId, bmsId: string, acks: Acks): (Option<bool>, seq<BmsId>)
    requires id in acks
  {
    if st.0.None? || id.bmsId != bmsId then st
    else (if acks[id].0 then Some(true) else None, st.1 + [id])
  }

  /** The `forEach` of `writeSoc` carried on over `ids` from state `st`. */
  function Resume(ids: seq<BmsId>, bmsId: string, acks: Acks, st: (Option<bool>, seq<BmsId>)): (Option<bool>, seq<BmsId>)
    requires forall i :: 0 <= i < |ids| ==> ids[i] in acks
  {
    if st.0.None? then st
    else (SocWrites(ids, bmsId, acks, st.0.value).0, st.1 + SocWrites(ids, bmsId, acks, st.0.value).1)
  }

  /** Carrying on over `ids` is taking one pass, then carrying on over the rest. */
  lemma ResumeStep(ids: seq<BmsId>, bmsId: string, acks: Acks, st: (Option<bool>, seq<BmsId>))
    requires |ids| > 0 && forall i :: 0 <= i < |ids| ==> ids[i] in acks
    ensures Resume(ids, bmsId, acks, st) == Resume(ids[1..], bmsId, acks, SocStep(st, ids[0], bmsId, acks))
  {
    if st.0.Some? && ids[0].bmsId == bmsId && acks[ids[0]].0 {
      var rest := SocWrites(ids[1..], bmsId, acks, true).1;
      assert st.1 + ([ids[0]] + rest) == (st.1 + [ids[0]]) + rest;
    }
  }

  /**
   * The loop of `writeSoc` after `i` connections in table order: `st` is
   * its state, carrying it on over the rest gives what the whole loop
   * gives, and `cur` is the table with the written connections moved on.
   */
  ghost predicate Writing(t: Table, acks: Acks, bmsId: string, i: int, st: (Option<bool>, seq<BmsId>), cur: Table)
  {
    && Ordered(t.links, t.order) && acks.Keys == t.links.Keys && 0 <= i <= |t.order|
    && (forall x :: x in st.1 ==> x in t.order[..i])
    && cur == Advance(t, Elems(st.1), acks)
    && Resume(t.order[i..], bmsId, acks, st) == Resume(t.order, bmsId, acks, (Some(false), []))
  }

  lemma WritingStart(t: Table, acks: Acks, bmsId: string)
    requires Ordered(t.links, t.order) && acks.Keys == t.links.Keys
    ensures Writing(t, acks, bmsId, 0, (Some(false), []), t)
  {
    AdvanceNone(t, acks);
    assert t.order[0..] == t.order;
  }

  /** ResumeStep at position `i` of the table order. */
  lemma ResumeNext(t: Table, acks: Acks, bmsId: string, i: int, st: (Option<bool>, seq<BmsId>))
    requires Ordered(t.links, t.order) && acks.Keys == t.links.Keys && 0 <= i < |t.order|
    ensures Resume(t.order[i..], bmsId, acks, st)
         == Resume(t.order[i + 1..], bmsId, acks, SocStep(st, t.order[i], bmsId, acks))
  {
    assert t.order[i..][1..] == t.order[i + 1..];
    ResumeStep(t.order[i..], bmsId, acks, st);
  }

  /** A pass over a connection of another pack keeps the loop on track and writes nothing. */
  lemma WritingSkip(t: Table, acks: Acks, bmsId: string, i: int, st: (Option<bool>, seq<BmsId>), cur: Table)
    requires Writing(t, acks, bmsId, i, st, cur) && i < |t.order| && st.0.Some? && t.order[i].bmsId != bmsId
    ensures Writing(t, acks, bmsId, i + 1, st, cur)
  {
    ResumeNext(t, acks, bmsId, i, st);
    PrefixSnoc(t.order, i);
  }

  /**
   * A pass over a connection of pack `bmsId` keeps the loop on track: that
   * connection has not been written yet, and it is written now.
   */
  lemma WritingWrite(t: Table, acks: Acks, bmsId: string, i: int, st: (Option<bool>, seq<BmsId>), cur: Table)
    requires Writing(t, acks, bmsId, i, st, cur) && i < |t.order| && st.0.Some? && t.order[i].bmsId == bmsId
    ensures var id := t.order[i];
      && id in cur.links && cur.links[id] == t.links[id] && cur.order == t.order
      && Writing(t, acks, bmsId, i + 1, (if acks[id].0 then Some(true) else None, st.1 + [id]),
                 cur.(links := cur.links[id := cur.links[id].(port := acks[id].1)]))
  {
    var id := t.order[i];
    ResumeNext(t, acks, bmsId, i, st);
    PrefixSnoc(t.order, i);
    assert id !in st.1 by {
      assert forall j :: 0 <= j < i ==> t.order[j] != id;
    }
    AdvanceStep(t, Elems(st.1), acks, id);
    assert Elems(st.1 + [id]) == Elems(st.1) + {id};
  }

  /** Once the loop has run out of connections or thrown, its state is what `writeSoc` gives. */
  lemma WritingDone(t: Table, acks: Acks, bmsId: string, i: int, st: (Option<bool>, seq<BmsId>), cur: Table)
    requires Writing(t, acks, bmsId, i, st, cur) && (i == |t.order| || st.0.None?)
    ensures st == SocWrites(t.order, bmsId, acks, false)
    ensures cur == Advance(t, Elems(SocWrites(t.order, bmsId, acks, false).1), acks)
  {
    var fin := SocWrites(t.order, bmsId, acks, false);
    if st.0.Some? {
      assert t.order[i..] == [];
      assert st.1 + [] == st.1;
    }
    assert [] + fin.1 == fin.1;
  }

  /** `writeSoc` on the table: its answer (None: it throws) and the table after. */
  function WriteSocAll(t: Table, bmsId: string, soc: int, now: DateTime): (r: (Option<bool>, Table))
    requires Ordered(t.links, t.order)
    ensures Ordered(r.1.links, r.1.order) && r.1.order == t.order
  {
    var acks := AckAll(t, soc, now);
    var (o, written) := SocWrites(t.order, bmsId, acks, false);
    (o, Advance(t, Elems(written), acks))
  }

  /**
   * `writeSoc` leaves every connection of another pack as it was, and
   * moves on exactly those it wrote.
   */
  lemma WriteSocOthers(t: Table, bmsId: string, soc: int, now: DateTime, id: BmsId)
    requires Ordered(t.links, t.order) && id in t.links
    ensures var (o, r) := WriteSocAll(t, bmsId, soc, now);
      && id in r.links
      && (id.bmsId != bmsId ==> r.links[id] == t.links[id])
      && (o.Some? && id.bmsId == bmsId ==> r.links[id].port == WriteSocSpec(t.links[id].port, soc, now).1)
  {
    var acks := AckAll(t, soc, now);
    SocWritesOutcome(t.order, bmsId, acks);
    var i :| 0 <= i < |t.order| && t.order[i] == id;
    assert id.bmsId == bmsId ==> Matches(t.order, bmsId, i);
  }

  // ---------------------------------------------------------------------
  // The service

  /** Growing a prefix by one element, as a sequence and as a set. */
  lemma PrefixSnoc<T>(s: seq<T>, i: int)
    requires 0 <= i < |s|
    ensures s[..i + 1] == s[..i] + [s[i]]
    ensures Elems(s[..i + 1]) == Elems(s[..i]) + {s[i]}
  {
    assert s[..i + 1] == s[..i] + [s[i]];
  }

  /** Dropping the first `i` packs and then pack `i` drops the first `i + 1`. */
  lemma DropStep(t: Table, ids: seq<BmsId>, i: int)
    requires 0 <= i < |ids|
    ensures var done := Elems(ids[..i]);
      Table(t.links - done - {ids[i]}, Without(Without(t.order, done), {ids[i]}))
      == Table(t.links - Elems(ids[..i + 1]), Without(t.order, Elems(ids[..i + 1])))
  {
    WithoutTwice(t.order, Elems(ids[..i]), {ids[i]});
    PrefixSnoc(ids, i);
  }

  /** The poll goes through the packs front to back: one more pack adds its own outcome at the end. */
  lemma {:induction false} PollSnoc(ids: seq<BmsId>, x: BmsId, got: Reads)
    requires forall i :: 0 <= i < |ids| ==> ids[i] in got
    requires x in got
    ensures Poll(ids + [x], got) == (Poll(ids, got).0 + (if got[x].0.Some? then [got[x].0.value] else []),
                                     Poll(ids, got).1 + (if got[x].0.Some? then [] else [x]))
    decreases |ids|
  {
    if ids == [] {
      assert [] + [x] == [x];
      assert [x][1..] == [] && [x][0] == x;
      assert Poll([], got) == ([], []);
      var d := got[x].0;
      var r := Poll([x], got);
      var c1: seq<BmsData> := if d.Some? then [d.value] else [];
      var f1: seq<BmsId> := if d.Some? then [] else [x];
      assert r.0 == [] + c1 && r.1 == [] + f1;
    } else {
      var tail := ids[1..];
      assert (ids + [x])[1..] == tail + [x];
      assert (ids + [x])[0] == ids[0];
      PollSnoc(tail, x, got);
      var (c, f) := Poll(tail, got);
      var c1 := if got[x].0.Some? then [got[x].0.value] else [];
      var f1 := if got[x].0.Some? then [] else [x];
      var d := got[ids[0]].0;
      if d.Some? {
        assert [d.value] + (c + c1) == ([d.value] + c) + c1;
      } else {
        assert [ids[0]] + (f + f1) == ([ids[0]] + f) + f1;
      }
    }
  }

  /** Moving one more connection on extends the set of those moved on by one. */
  lemma AdvanceStep<R>(t: Table, done: set<BmsId>, outcome: map<BmsId, (R, Port)>, id: BmsId)
    requires Ordered(t.links, t.order) && done <= outcome.Keys && id in outcome && id in t.links
    ensures Advance(t, done + {id}, outcome)
         == Advance(t, done, outcome).(links := Advance(t, done, outcome).links[id := t.links[id].(port := outcome[id].1)])
  {
    var a := Advance(t, done + {id}, outcome);
    var b := Advance(t, done, outcome);
    assert a.links == b.links[id := t.links[id].(port := outcome[id].1)];
  }

  /** Moving on no connection leaves the table as it was. */
  lemma AdvanceNone<R>(t: Table, outcome: map<BmsId, (R, Port)>)
    requires Ordered(t.links, t.order)
    ensures Advance(t, {}, outcome) == t
  {
    assert Advance(t, {}, outcome).links == t.links;
  }

  /**
   * The poll loop after `i` connections in table order: the snapshots and
   * failures of those packs, and `cur` the table with their connections
   * moved on by their reads.
   */
  ghost predicate Polling(t: Table, got: Reads, i: int, collected: seq<BmsData>, failed: seq<BmsId>, cur: Table)
  {
    && Ordered(t.links, t.order) && got.Keys == t.links.Keys && 0 <= i <= |t.order|
    && cur == Advance(t, Elems(t.order[..i]), got)
    && collected == Poll(t.order[..i], got).0 && failed == Poll(t.order[..i], got).1
  }

  lemma PollingStart(t: Table, got: Reads)
    requires Ordered(t.links, t.order) && got.Keys == t.links.Keys
    ensures Polling(t, got, 0, [], [], t)
  {
    AdvanceNone(t, got);
    assert Elems(t.order[..0]) == {};
  }

  /** A read of the next connection keeps the poll on track; that connection has not been read yet. */
  lemma PollingStep(t: Table, got: Reads, i: int, collected: seq<BmsData>, failed: seq<BmsId>, cur: Table)
    requires Polling(t, got, i, collected, failed, cur) && i < |t.order|
    ensures var id := t.order[i];
      && id in cur.links && cur.links[id] == t.links[id] && cur.order == t.order
      && Polling(t, got, i + 1,
                 collected + (if got[id].0.Some? then [got[id].0.value] else []),
                 failed + (if got[id].0.Some? then [] else [id]),
                 cur.(links := cur.links[id := cur.links[id].(port := got[id].1)]))
  {
    var id := t.order[i];
    assert id !in Elems(t.order[..i]) by {
      assert forall j :: 0 <= j < i ==> t.order[j] != id;
    }
    AdvanceStep(t, Elems(t.order[..i]), got, id);
    PollSnoc(t.order[..i], id, got);
    PrefixSnoc(t.order, i);
  }

  /** After every connection, the poll has given its outcome and every connection has moved on. */
  lemma PollingDone(t: Table, got: Reads, collected: seq<BmsData>, failed: seq<BmsId>, cur: Table)
    requires Polling(t, got, |t.order|, collected, failed, cur)
    ensures collected == Poll(t.order, got).0 && failed == Poll(t.order, got).1
    ensures cur == Advance(t, t.links.Keys, got)
  {
    assert t.order[..|t.order|] == t.order;
    assert Elems(t.order) == t.links.Keys;
  }

  /**
   * `BmsService`: `connected`, the open connection of every pack keyed by
   * its configuration, in that `mutableMapOf`'s insertion order. Each
   * connection is held as what the scheduler can tell of it, a `Link`.
   */
  class BmsService {
    var table: Table

    /** No pack is listed twice, and the order lists exactly the connected packs. */
    predicate Valid()
      reads this
    {
      Ordered(table.links, table.order)
    }

    constructor ()
      ensures Valid() && table == Table(map[], [])
    {
      table := Table(map[], []);
    }

    /** `connected[d]?.close()` and `connected.remove(d)`: pack `d`, if connected, leaves the table. */
    method Discard(d: BmsId)
      requires Valid()
      modifies this
      ensures Valid()
      ensures table == Table(old(table).links - {d}, Without(old(table).order, {d}))
    {
      WithoutOrdered(table.links, table.order, {d});
      table := Table(table.links - {d}, Without(table.order, {d}));
    }

    /** `closeToBeDisconnected`: every listed pack still connected leaves the table. */
    method CloseAll(ids: seq<BmsId>)
      requires Valid()
      modifies this
      ensures Valid()
      ensures table == Drop(old(table), ids)
    {
      ghost var t := table;
      WithoutNone(t.order, {});
      assert Elems(ids[..0]) == {};
      for i := 0 to |ids|
        invariant Valid()
        invariant table == Table(t.links - Elems(ids[..i]), Without(t.order, Elems(ids[..i])))
      {
        Discard(ids[i]);
        DropStep(t, ids, i);
      }
      assert ids[..|ids|] == ids;
      assert Drop(t, ids) == Table(t.links - Elems(ids), Without(t.order, Elems(ids)));
    }

    /** `connected[d] = BmsConnection(...)`: a new connection on `port` becomes pack `d`'s. */
    method Admit(d: BmsId, port: seq<Event>, numberOfCells: int)
      requires Valid()
      modifies this
      ensures Valid()
      ensures table.links == old(table).links[d := Opened(port, numberOfCells)]
      ensures table.order == if d in old(table).links then old(table).order else old(table).order + [d]
    {
      var (links, order) := Put(table.links, table.order, d, Opened(port, numberOfCells));
      table := Table(links, order);
    }

    /**
     * The connect loop of `tickLocked`: each listed pack whose port opens,
     * with a cell count that parses, gets a new connection.
     */
    method ConnectAll(todo: seq<BmsId>, ports: map<string, seq<Event>>, cells: Option<int>)
      requires Valid()
      modifies this
      ensures Valid()
      ensures table == Connect(old(table), todo, ports, cells)
    {
      for i := 0 to |todo|
        invariant Valid()
        invariant Connect(table, todo[i..], ports, cells) == Connect(old(table), todo, ports, cells)
      {
        var d := todo[i];
        assert todo[i..][1..] == todo[i + 1..];
        if d.usbId in ports && cells.Some? {
          Admit(d, ports[d.usbId], cells.value);
        }
      }
    }

    /**
     * Step 3 of `tickLocked`: every connection reads its pack in turn; the
     * snapshots that came, and the packs whose read gave nothing.
     */
    method PollAll(now: DateTime, timestamp: real) returns (collected: seq<BmsData>, failed: seq<BmsId>)
      requires Valid()
      modifies this
      ensures Valid()
      ensures collected == Poll(old(table).order, ReadAll(old(table), now, timestamp)).0
      ensures failed == Poll(old(table).order, ReadAll(old(table), now, timestamp)).1
      ensures table == Advance(old(table), old(table).links.Keys, ReadAll(old(table), now, timestamp))
    {
      ghost var t := table;
      ghost var got := ReadAll(t, now, timestamp);
      collected, failed := [], [];
      PollingStart(t, got);
      var order := table.order;
      for i := 0 to |order|
        invariant Polling(t, got, i, collected, failed, table)
      {
        collected, failed := PollOne(t, got, order, i, now, timestamp, collected, failed);
      }
      PollingDone(t, got, collected, failed, table);
    }

    /** One pass of the poll loop: pack `order[i]` reads, and its outcome joins those of the packs before it. */
    method PollOne(ghost t: Table, ghost got: Reads, order: seq<BmsId>, i: nat, now: DateTime, timestamp: real,
                   collected: seq<BmsData>, failed: seq<BmsId>)
      returns (collected': seq<BmsData>, failed': seq<BmsId>)
      requires got == ReadAll(t, now, timestamp) && order == t.order && i < |order|
      requires Polling(t, got, i, collected, failed, table)
      modifies this
      ensures Polling(t, got, i + 1, collected', failed', table)
    {
      var id := order[i];
      PollingStep(t, got, i, collected, failed, table);
      ghost var after := table.(links := table.links[id := table.links[id].(port := got[id].1)]);
      var link := table.links[id];
      var (d, port) := ReadDataSpec(link.port, id, link.numberOfCells, now, timestamp);
      assert (d, port) == got[id];
      table := table.(links := table.links[id := link.(port := port)]);
      if d.Some? {
        collected', failed' := collected + [d.value], failed;
      } else {
        collected', failed' := collected, failed + [id];
      }
      assert table == after;
    }

    /**
     * `tickLocked`: brings the table in line with the configuration, polls
     * every pack, drops those that failed, and answers the snapshots every
     * listener is handed. A configuration that cannot be read aborts the
     * tick before anything changes.
     */
    method Tick(entries: seq<(string, string)>, settings: map<string, string>, ports: map<string, seq<Event>>,
                now: DateTime, timestamp: real) returns (r: Outcome<seq<BmsData>>)
      requires Valid()
      modifies this
      ensures Valid()
      ensures r.Fail? <==> TargetDevices(entries, settings).Fail?
      ensures r.Fail? ==> table == old(table)
      ensures r.Ok? ==> r.value == TickSpec(old(table), TargetDevices(entries, settings).value, ports,
                                            NumberOfCells(settings), now, timestamp).0
      ensures r.Ok? ==> table == TickSpec(old(table), TargetDevices(entries, settings).value, ports,
                                          NumberOfCells(settings), now, timestamp).1
    {
      var targets := TargetDevices(entries, settings);
      if targets.Fail? {
        return Fail(targets.reason);
      }
      var gone := Gone(table, targets.value);
      CloseAll(gone);
      ConnectAll(Without(targets.value, table.links.Keys), ports, NumberOfCells(settings));
      var collected, failed := PollAll(now, timestamp);
      CloseAll(gone + failed);
      r := Ok(collected);
    }

    /**
     * `writeSoc`: the new state of charge goes to every connection of pack
     * `bmsId` in table order; false when there is none, and the first
     * connection that fails ends the call with its exception (None).
     */
    method WriteSoc(bmsId: string, soc: int, now: DateTime) returns (r: Option<bool>)
      requires Valid()
      modifies this
      ensures Valid()
      ensures r == WriteSocAll(old(table), bmsId, soc, now).0
      ensures table == WriteSocAll(old(table), bmsId, soc, now).1
    {
      ghost var t := table;
      ghost var acks := AckAll(t, soc, now);
      ghost var written: seq<BmsId> := [];
      r := Some(false);
      var order := table.order;
      var i := 0;
      WritingStart(t, acks, bmsId);
      while i < |order| && r.Some?
        invariant Writing(t, acks, bmsId, i, (r, written), table)
      {
        var id := order[i];
        if id.bmsId == bmsId {
          WritingWrite(t, acks, bmsId, i, (r, written), table);
          ghost var after := table.(links := table.links[id := table.links[id].(port := acks[id].1)]);
          var link := table.links[id];
          var (ack, port) := WriteSocSpec(link.port, soc, now);
          assert (ack, port) == acks[id];
          table := table.(links := table.links[id := link.(port := port)]);
          written := written + [id];
          r := if ack then Some(true) else None;
          assert table == after;
        } else {
          WritingSkip(t, acks, bmsId, i, (r, written), table);
        }
        i := i + 1;
      }
      WritingDone(t, acks, bmsId, i, (r, written), table);
    }
  }
}
