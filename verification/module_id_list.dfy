/**
 * `decodeModuleIdList(encoded, moduleIdMap)`: the reader of the numeric
 * module-id list the loader extension encodes into request URLs. The list is
 * a run of groups; a group is a start position, an entry count and that many
 * entries, and entry j of a group names the module at slot position + j. An
 * entry is a module id, or the escape 0 followed by a plugin id and a module
 * id for a plugin-prefixed module.
 */
module ModuleIdList {
  import opened Wrappers

  /** One slot assignment of the decoder: `result[slot] = name`. */
  type Write = (int, string)

  /**
   * `idModuleMap`: the inverse of the name-to-id map, built in enumeration
   * order, so a later name with the same id wins.
   */
  function Inverse(moduleIdMap: seq<(string, int)>): (inv: map<int, string>)
    ensures inv.Keys == set k | 0 <= k < |moduleIdMap| :: moduleIdMap[k].1
  {
    if moduleIdMap == [] then map[]
    else
      var last := moduleIdMap[|moduleIdMap| - 1];
      var inv := Inverse(moduleIdMap[..|moduleIdMap| - 1])[last.1 := last.0];
      assert forall k :: 0 <= k < |moduleIdMap| - 1 ==> moduleIdMap[..|moduleIdMap| - 1][k] == moduleIdMap[k];
      inv
  }

  /** `encoded[i]`: `None` (undefined) past the end. */
  function Read(encoded: seq<int>, i: nat): (r: Option<int>)
    ensures r.Some? <==> i < |encoded|
    ensures i < |encoded| ==> r == Some(encoded[i])
  {
    if i < |encoded| then Some(encoded[i]) else None
  }

  /** `idModuleMap[id]` as a string: "undefined" for an unknown or missing id. */
  function Lookup(inv: map<int, string>, id: Option<int>): (name: string)
    ensures id.Some? && id.value in inv ==> name == inv[id.value]
    ensures !(id.Some? && id.value in inv) ==> name == "undefined"
  {
    if id.Some? && id.value in inv then inv[id.value] else "undefined"
  }

  /**
   * One entry read at `i`: the string stored in the result and the index
   * after the entry. A plain id names its module; the escape 0 is followed by
   * a plugin id and a module id (a module id of 0 meaning no module name).
   */
  function Entry(encoded: seq<int>, inv: map<int, string>, i: nat): (r: (string, nat))
    ensures Read(encoded, i) == Some(0) ==> r.1 == i + 3
    ensures Read(encoded, i) != Some(0) ==> r.0 == Lookup(inv, Read(encoded, i)) && r.1 == i + 1
  {
    if Read(encoded, i) == Some(0) then
      var pluginName := Lookup(inv, Read(encoded, i + 1));
      var moduleId := Read(encoded, i + 2);
      (pluginName + "!" + (if moduleId != Some(0) then Lookup(inv, moduleId) else ""), i + 3)
    else
      (Lookup(inv, Read(encoded, i)), i + 1)
  }

  /** The module part as line 39 writes it: the whole map object, which prints as "[object Object]". */
  function EntryAsWritten(encoded: seq<int>, inv: map<int, string>, i: nat): (r: (string, nat))
    ensures Read(encoded, i) != Some(0) ==> r == Entry(encoded, inv, i)
  {
    if Read(encoded, i) == Some(0) then
      var pluginName := Lookup(inv, Read(encoded, i + 1));
      var moduleId := Read(encoded, i + 2);
      (pluginName + "!" + (if moduleId != Some(0) then "[object Object]" else ""), i + 3)
    else
      Entry(encoded, inv, i)
  }

  /** Entries j, j+1, ... of a group at `position` with `count` entries, read from `i`: their writes and the index after them. */
  function Entries(encoded: seq<int>, inv: map<int, string>, i: nat, position: int, j: nat, count: int): (r: (seq<Write>, nat))
    ensures r.1 >= i
    decreases count - j
  {
    if j >= count then ([], i)
    else
      var (name, next) := Entry(encoded, inv, i);
      var rest := Entries(encoded, inv, next, position, j + 1, count);
      ([(position + j, name)] + rest.0, rest.1)
  }

  lemma EntriesUnfold(encoded: seq<int>, inv: map<int, string>, i: nat, position: int, j: nat, count: int)
    requires j < count
    ensures var e := Entry(encoded, inv, i);
      var rest := Entries(encoded, inv, e.1, position, j + 1, count);
      Entries(encoded, inv, i, position, j, count).0 == [(position + j, e.0)] + rest.0 &&
      Entries(encoded, inv, i, position, j, count).1 == rest.1
  {
  }

  lemma EntriesStep(encoded: seq<int>, inv: map<int, string>, i: nat, position: int, j: nat, count: int, done: seq<Write>)
    requires j < count
    ensures var e := Entry(encoded, inv, i);
      var rest := Entries(encoded, inv, e.1, position, j + 1, count);
      done + Entries(encoded, inv, i, position, j, count).0 == (done + [(position + j, e.0)]) + rest.0 &&
      Entries(encoded, inv, i, position, j, count).1 == rest.1
  {
    var e := Entry(encoded, inv, i);
    var rest := Entries(encoded, inv, e.1, position, j + 1, count);
    EntriesUnfold(encoded, inv, i, position, j, count);
    assert done + ([(position + j, e.0)] + rest.0) == (done + [(position + j, e.0)]) + rest.0;
  }

  /** The writes of the groups from index `i` on, in the order the decoder makes them. */
  function Groups(encoded: seq<int>, inv: map<int, string>, i: nat): seq<Write>
    decreases |encoded| - i
  {
    if i >= |encoded| then []
    else
      var (ws, next) := Entries(encoded, inv, i + 2, encoded[i], 0, Count(encoded, i));
      ws + Groups(encoded, inv, next)
  }

  /** The count of the group at `i`: a missing count reads as undefined, and `j < undefined` is false. */
  function Count(encoded: seq<int>, i: nat): int
  {
    match Read(encoded, i + 1)
    case Some(n) => n
    case None => 0
  }

  lemma GroupsUnfold(encoded: seq<int>, inv: map<int, string>, i: nat)
    requires i < |encoded|
    ensures var group := Entries(encoded, inv, i + 2, encoded[i], 0, Count(encoded, i));
      Groups(encoded, inv, i) == group.0 + Groups(encoded, inv, group.1)
  {
  }

  lemma GroupsStep(encoded: seq<int>, inv: map<int, string>, i: nat, done: seq<Write>)
    requires i < |encoded|
    ensures var group := Entries(encoded, inv, i + 2, encoded[i], 0, Count(encoded, i));
      done + Groups(encoded, inv, i) == (done + group.0) + Groups(encoded, inv, group.1)
  {
    GroupsUnfold(encoded, inv, i);
  }

  function Writes(encoded: seq<int>, moduleIdMap: seq<(string, int)>): seq<Write>
  {
    Groups(encoded, Inverse(moduleIdMap), 0)
  }

  /** The slots of a run of writes. */
  function Slots(ws: seq<Write>): set<int>
  {
    set k | 0 <= k < |ws| :: ws[k].0
  }

  /** The result object after a run of writes; a later write to a slot wins. */
  function Apply(ws: seq<Write>): map<int, string>
  {
    if ws == [] then map[]
    else Apply(ws[..|ws| - 1])[ws[|ws| - 1].0 := ws[|ws| - 1].1]
  }

  /** Exactly the written slots are defined; every other position stays undefined. */
  lemma {:induction false} ApplyKeys(ws: seq<Write>)
    ensures Apply(ws).Keys == Slots(ws)
  {
    if ws != [] {
      var prefix := ws[..|ws| - 1];
      ApplyKeys(prefix);
      assert forall k :: 0 <= k < |prefix| ==> prefix[k] == ws[k];
      assert Slots(ws) == Slots(prefix) + {ws[|ws| - 1].0};
    }
  }

  /** No slot is written twice: the expectation that the slot is still undefined holds at every write. */
  predicate SlotsDistinct(ws: seq<Write>)
  {
    forall a, b :: 0 <= a < b < |ws| ==> ws[a].0 != ws[b].0
  }

  lemma DistinctSnoc(ws: seq<Write>, w: Write)
    ensures SlotsDistinct(ws + [w]) <==> SlotsDistinct(ws) && w.0 !in Slots(ws)
  {
    if SlotsDistinct(ws) && w.0 !in Slots(ws) {
      forall a, b | 0 <= a < b < |ws + [w]|
        ensures (ws + [w])[a].0 != (ws + [w])[b].0
      {
        if b == |ws| {
          assert (ws + [w])[a].0 in Slots(ws);
        }
      }
    }
    if SlotsDistinct(ws + [w]) {
      forall a, b | 0 <= a < b < |ws|
        ensures ws[a].0 != ws[b].0
      {
        assert ws[a] == (ws + [w])[a] && ws[b] == (ws + [w])[b];
      }
      forall k | 0 <= k < |ws|
        ensures ws[k].0 != w.0
      {
        assert ws[k] == (ws + [w])[k] && w == (ws + [w])[|ws|];
      }
    }
  }

  /** When no slot is written twice, every slot holds what was written to it. */
  lemma {:induction false} ApplyDistinct(ws: seq<Write>)
    requires SlotsDistinct(ws)
    ensures forall k :: 0 <= k < |ws| ==> ws[k].0 in Apply(ws) && Apply(ws)[ws[k].0] == ws[k].1
  {
    if ws != [] {
      var prefix := ws[..|ws| - 1];
      assert forall k :: 0 <= k < |prefix| ==> prefix[k] == ws[k];
      ApplyDistinct(prefix);
      forall k | 0 <= k < |ws|
        ensures ws[k].0 in Apply(ws) && Apply(ws)[ws[k].0] == ws[k].1
      {
        if k < |prefix| {
          assert ws[k].0 != ws[|ws| - 1].0;
        }
      }
    }
  }

  /** The first loop of the decoder: `idModuleMap[moduleIdMap[s]] = s` for each name `s` in turn. */
  method InvertIdMap(moduleIdMap: seq<(string, int)>) returns (idModuleMap: map<int, string>)
    ensures idModuleMap == Inverse(moduleIdMap)
  {
    idModuleMap := map[];
    for k := 0 to |moduleIdMap|
      invariant idModuleMap == Inverse(moduleIdMap[..k])
    {
      assert moduleIdMap[..k + 1][..k] == moduleIdMap[..k];
      idModuleMap := idModuleMap[moduleIdMap[k].1 := moduleIdMap[k].0];
    }
    assert moduleIdMap[..|moduleIdMap|] == moduleIdMap;
  }

  /** The body of the inner loop of the decoder up to the write: one entry read at `i`. */
  method ReadEntry(encoded: seq<int>, idModuleMap: map<int, string>, i: nat) returns (name: string, next: nat)
    ensures name == Entry(encoded, idModuleMap, i).0 && next == Entry(encoded, idModuleMap, i).1
  {
    var pluginName: Option<string>, moduleName: string := None, "";
    next := i;
    var id := Read(encoded, next);
    next := next + 1;
    if id == Some(0) {
      // the escape: a plugin id and a module id follow
      id := Read(encoded, next);
      next := next + 1;
      pluginName := Some(Lookup(idModuleMap, id));
      id := Read(encoded, next);
      next := next + 1;
      moduleName := if id != Some(0) then Lookup(idModuleMap, id) else "";
    } else {
      moduleName := Lookup(idModuleMap, id);
    }
    name := (if pluginName.Some? then pluginName.value + "!" else "") + moduleName;
    assert "" + moduleName == moduleName;
  }

  /** One entry of a group: the writes still to come shrink by the one just read. */
  lemma GroupStep(encoded: seq<int>, inv: map<int, string>, i: nat, position: int, j: nat, count: int,
                  groupDone: seq<Write>, all: seq<Write>, name: string, next: nat)
    requires j < count
    requires all == groupDone + Entries(encoded, inv, i, position, j, count).0
    requires name == Entry(encoded, inv, i).0 && next == Entry(encoded, inv, i).1
    ensures all == (groupDone + [(position + j, name)]) + Entries(encoded, inv, next, position, j + 1, count).0
    ensures Entries(encoded, inv, i, position, j, count).1 == Entries(encoded, inv, next, position, j + 1, count).1
  {
    EntriesStep(encoded, inv, i, position, j, count, groupDone);
  }

  /** One write on top of the earlier ones: the slot takes the name, and the slots stay distinct when it was free. */
  lemma WriteStep(done: seq<Write>, groupDone: seq<Write>, w: Write, result: map<int, string>, met: bool)
    requires result == Apply(done + groupDone) && (met <==> SlotsDistinct(done + groupDone))
    ensures Apply(done + (groupDone + [w])) == result[w.0 := w.1]
    ensures SlotsDistinct(done + (groupDone + [w])) <==> met && w.0 !in result
  {
    assert done + (groupDone + [w]) == (done + groupDone) + [w];
    DistinctSnoc(done + groupDone, w);
    ApplyKeys(done + groupDone);
  }

  /**
   * The inner loop of the decoder: the `length` entries of the group at
   * `position`, read from `i0` and written into `result0`, with `met0`
   * recording whether every expectation held so far.
   */
  method DecodeGroup(encoded: seq<int>, idModuleMap: map<int, string>, i0: nat, position: int, length: int,
                     ghost done: seq<Write>, result0: map<int, string>, met0: bool)
    returns (result: map<int, string>, met: bool, i: nat)
    requires result0 == Apply(done) && (met0 <==> SlotsDistinct(done))
    ensures var group := Entries(encoded, idModuleMap, i0, position, 0, length);
      i == group.1 && result == Apply(done + group.0) && (met <==> SlotsDistinct(done + group.0))
  {
    result, met, i := result0, met0, i0;
    ghost var group := Entries(encoded, idModuleMap, i0, position, 0, length);
    ghost var groupDone: seq<Write> := [];
    assert groupDone + group.0 == group.0 && done + groupDone == done;
    var j: nat := 0;
    while j < length
      invariant group.0 == groupDone + Entries(encoded, idModuleMap, i, position, j, length).0
      invariant group.1 == Entries(encoded, idModuleMap, i, position, j, length).1
      invariant result == Apply(done + groupDone) && (met <==> SlotsDistinct(done + groupDone))
      decreases length - j
    {
      ghost var at := i;
      var name;
      name, i := ReadEntry(encoded, idModuleMap, i);
      GroupStep(encoded, idModuleMap, at, position, j, length, groupDone, group.0, name, i);
      WriteStep(done, groupDone, (position + j, name), result, met);
      // the expectation that the slot is still undefined
      if position + j in result {
        met := false;
      }
      result := result[position + j := name];
      groupDone := groupDone + [(position + j, name)];
      j := j + 1;
    }
    ghost var rest := Entries(encoded, idModuleMap, i, position, j, length);
    assert rest.0 == [] && rest.1 == i;
    assert group.0 == groupDone + [] == groupDone;
  }

  /**
   * `decodeModuleIdList(encoded, moduleIdMap)`, with the module id of an
   * escaped entry looked up in the inverse map. Returns the result slots and
   * whether every expectation held (no slot was written twice).
   */
  method DecodeModuleIdList(encoded: seq<int>, moduleIdMap: seq<(string, int)>) returns (result: map<int, string>, met: bool)
    ensures result == Apply(Writes(encoded, moduleIdMap))
    ensures met <==> SlotsDistinct(Writes(encoded, moduleIdMap))
  {
    var idModuleMap := InvertIdMap(moduleIdMap);
    result, met := map[], true;
    ghost var done: seq<Write> := [];
    var i: nat, position, length := 0, -1, 0;
    while i < |encoded|
      invariant position == -1
      invariant done + Groups(encoded, idModuleMap, i) == Writes(encoded, moduleIdMap)
      invariant result == Apply(done) && (met <==> SlotsDistinct(done))
      decreases |encoded| - i
    {
      GroupsStep(encoded, idModuleMap, i, done);
      if position == -1 {
        // read the position and the entry count
        position := encoded[i];
        length := Count(encoded, i);
        i := i + 2;
      }
      ghost var group := Entries(encoded, idModuleMap, i, position, 0, length);
      result, met, i := DecodeGroup(encoded, idModuleMap, i, position, length, done, result, met);
      done := done + group.0;
      position := -1;
    }
    assert Groups(encoded, idModuleMap, i) == [];
    assert done == done + [];
  }

  // The encoding side, as a reference: the lists the loader extension sends
  // for known modules decode to exactly those modules.

  /** A module in an encoded list: a plain module id, or a plugin-prefixed module. */
  datatype ModuleRef = Plain(name: string) | Plugin(plugin: string, name: string)

  /** A group of the list: consecutive modules from slot `position` on. */
  datatype Group = Group(position: int, refs: seq<ModuleRef>)

  /** The module id a reference stands for in the decoded list. */
  function Render(r: ModuleRef): string
  {
    match r
    case Plain(n) => n
    case Plugin(p, n) => p + "!" + n
  }

  /** A usable name-to-id map: no two names share an id, and no name has the escape id 0. */
  predicate IdsUsable(moduleIdMap: seq<(string, int)>)
  {
    (forall a, b :: 0 <= a < b < |moduleIdMap| ==> moduleIdMap[a].1 != moduleIdMap[b].1) &&
    (forall k :: 0 <= k < |moduleIdMap| ==> moduleIdMap[k].1 != 0)
  }

  predicate Known(moduleIdMap: seq<(string, int)>, name: string)
  {
    exists k :: 0 <= k < |moduleIdMap| && moduleIdMap[k].0 == name
  }

  predicate RefKnown(moduleIdMap: seq<(string, int)>, r: ModuleRef)
  {
    Known(moduleIdMap, r.name) && (r.Plugin? ==> Known(moduleIdMap, r.plugin))
  }

  predicate GroupsKnown(moduleIdMap: seq<(string, int)>, groups: seq<Group>)
  {
    forall g, k :: 0 <= g < |groups| && 0 <= k < |groups[g].refs| ==> RefKnown(moduleIdMap, groups[g].refs[k])
  }

  lemma KnownInit(moduleIdMap: seq<(string, int)>, name: string)
    requires Known(moduleIdMap, name) && moduleIdMap[|moduleIdMap| - 1].0 != name
    ensures Known(moduleIdMap[..|moduleIdMap| - 1], name)
  {
    var k :| 0 <= k < |moduleIdMap| && moduleIdMap[k].0 == name;
    assert moduleIdMap[..|moduleIdMap| - 1][k] == moduleIdMap[k];
  }

  /** The id of a known name (the last entry for it). */
  function IdOf(moduleIdMap: seq<(string, int)>, name: string): (id: int)
    requires Known(moduleIdMap, name)
    ensures exists k :: 0 <= k < |moduleIdMap| && moduleIdMap[k] == (name, id)
  {
    var last := moduleIdMap[|moduleIdMap| - 1];
    if last.0 == name then last.1
    else
      KnownInit(moduleIdMap, name);
      var init := moduleIdMap[..|moduleIdMap| - 1];
      assert forall k :: 0 <= k < |init| ==> init[k] == moduleIdMap[k];
      IdOf(init, name)
  }

  /** The inverse map takes a known name's id back to the name. */
  lemma {:induction false} InverseIdOf(moduleIdMap: seq<(string, int)>, name: string)
    requires IdsUsable(moduleIdMap) && Known(moduleIdMap, name)
    ensures IdOf(moduleIdMap, name) != 0
    ensures IdOf(moduleIdMap, name) in Inverse(moduleIdMap) && Inverse(moduleIdMap)[IdOf(moduleIdMap, name)] == name
  {
    var last := moduleIdMap[|moduleIdMap| - 1];
    var init := moduleIdMap[..|moduleIdMap| - 1];
    if last.0 != name {
      KnownInit(moduleIdMap, name);
      assert forall k :: 0 <= k < |init| ==> init[k] == moduleIdMap[k];
      InverseIdOf(init, name);
      var k :| 0 <= k < |init| && init[k] == (name, IdOf(init, name));
      assert IdOf(init, name) != last.1;
    }
  }

  function EncodeRef(moduleIdMap: seq<(string, int)>, r: ModuleRef): seq<int>
    requires RefKnown(moduleIdMap, r)
  {
    match r
    case Plain(n) => [IdOf(moduleIdMap, n)]
    case Plugin(p, n) => [0, IdOf(moduleIdMap, p), IdOf(moduleIdMap, n)]
  }

  function EncodeRefs(moduleIdMap: seq<(string, int)>, rs: seq<ModuleRef>): seq<int>
    requires forall k :: 0 <= k < |rs| ==> RefKnown(moduleIdMap, rs[k])
  {
    if rs == [] then [] else EncodeRef(moduleIdMap, rs[0]) + EncodeRefs(moduleIdMap, rs[1..])
  }

  /** The encoded list: each group as its position, its count and its entries. */
  function Encode(moduleIdMap: seq<(string, int)>, groups: seq<Group>): seq<int>
    requires GroupsKnown(moduleIdMap, groups)
  {
    if groups == [] then []
    else
      assert forall k :: 0 <= k < |groups[0].refs| ==> RefKnown(moduleIdMap, groups[0].refs[k]);
      [groups[0].position, |groups[0].refs|] + EncodeRefs(moduleIdMap, groups[0].refs) + Encode(moduleIdMap, groups[1..])
  }

  /** The slot writes a list of groups stands for. */
  function Expected(groups: seq<Group>): seq<Write>
  {
    if groups == [] then []
    else
      var g := groups[0];
      RefWrites(g.refs, g.position, 0) + Expected(groups[1..])
  }

  /** `xs` sits in `encoded` at index `i`. */
  predicate At(encoded: seq<int>, i: nat, xs: seq<int>)
  {
    i + |xs| <= |encoded| && encoded[i..i + |xs|] == xs
  }

  lemma AtSplit(encoded: seq<int>, i: nat, xs: seq<int>, ys: seq<int>)
    requires At(encoded, i, xs + ys)
    ensures At(encoded, i, xs) && At(encoded, i + |xs|, ys)
  {
    assert encoded[i..i + |xs|] == (xs + ys)[..|xs|];
    assert encoded[i + |xs|..i + |xs| + |ys|] == (xs + ys)[|xs|..];
  }

  /** An encoded reference decodes to the module it stands for. */
  lemma EntryRoundTrip(moduleIdMap: seq<(string, int)>, r: ModuleRef, encoded: seq<int>, i: nat)
    requires IdsUsable(moduleIdMap) && RefKnown(moduleIdMap, r)
    requires At(encoded, i, EncodeRef(moduleIdMap, r))
    ensures Entry(encoded, Inverse(moduleIdMap), i).0 == Render(r)
    ensures Entry(encoded, Inverse(moduleIdMap), i).1 == i + |EncodeRef(moduleIdMap, r)|
  {
    var inv := Inverse(moduleIdMap);
    var e := EncodeRef(moduleIdMap, r);
    assert encoded[i] == e[0] by {
      assert encoded[i..i + |e|][0] == e[0];
    }
    var n := IdOf(moduleIdMap, r.name);
    InverseIdOf(moduleIdMap, r.name);
    if r.Plugin? {
      var p := IdOf(moduleIdMap, r.plugin);
      InverseIdOf(moduleIdMap, r.plugin);
      assert encoded[i + 1] == p && encoded[i + 2] == n by {
        assert encoded[i..i + |e|][1] == e[1] && encoded[i..i + |e|][2] == e[2];
      }
      assert Read(encoded, i) == Some(0);
      assert Lookup(inv, Read(encoded, i + 1)) == r.plugin;
      assert Lookup(inv, Read(encoded, i + 2)) == r.name;
    } else {
      assert Read(encoded, i) == Some(n);
      assert Lookup(inv, Some(n)) == r.name;
    }
  }

  /** The writes a run of references stands for, from reference `j` on, for a group at `position`. */
  function RefWrites(rs: seq<ModuleRef>, position: int, j: nat): seq<Write>
    requires j <= |rs|
    decreases |rs| - j
  {
    if j == |rs| then [] else [(position + j, Render(rs[j]))] + RefWrites(rs, position, j + 1)
  }

  lemma EncodeRefsSplit(moduleIdMap: seq<(string, int)>, rs: seq<ModuleRef>, encoded: seq<int>, i: nat, j: nat)
    requires forall k :: 0 <= k < |rs| ==> RefKnown(moduleIdMap, rs[k])
    requires j < |rs| && At(encoded, i, EncodeRefs(moduleIdMap, rs[j..]))
    ensures var e := EncodeRef(moduleIdMap, rs[j]);
      At(encoded, i, e) && At(encoded, i + |e|, EncodeRefs(moduleIdMap, rs[j + 1..])) &&
      |EncodeRefs(moduleIdMap, rs[j..])| == |e| + |EncodeRefs(moduleIdMap, rs[j + 1..])|
  {
    var e := EncodeRef(moduleIdMap, rs[j]);
    var more := EncodeRefs(moduleIdMap, rs[j + 1..]);
    assert rs[j..][1..] == rs[j + 1..];
    assert EncodeRefs(moduleIdMap, rs[j..]) == e + more;
    AtSplit(encoded, i, e, more);
  }

  lemma {:induction false} EntriesRoundTrip(moduleIdMap: seq<(string, int)>, rs: seq<ModuleRef>, encoded: seq<int>,
                                            i: nat, position: int, j: nat)
    requires IdsUsable(moduleIdMap) && forall k :: 0 <= k < |rs| ==> RefKnown(moduleIdMap, rs[k])
    requires j <= |rs| && At(encoded, i, EncodeRefs(moduleIdMap, rs[j..]))
    ensures Entries(encoded, Inverse(moduleIdMap), i, position, j, |rs|).0 == RefWrites(rs, position, j)
    ensures Entries(encoded, Inverse(moduleIdMap), i, position, j, |rs|).1 == i + |EncodeRefs(moduleIdMap, rs[j..])|
    decreases |rs| - j
  {
    var inv := Inverse(moduleIdMap);
    if j == |rs| {
      assert rs[j..] == [];
    } else {
      var e := EncodeRef(moduleIdMap, rs[j]);
      EncodeRefsSplit(moduleIdMap, rs, encoded, i, j);
      EntryRoundTrip(moduleIdMap, rs[j], encoded, i);
      EntriesRoundTrip(moduleIdMap, rs, encoded, i + |e|, position, j + 1);
      EntriesUnfold(encoded, inv, i, position, j, |rs|);
    }
  }

  /** The groups after the first are known, and so are the first group's modules. */
  lemma KnownTail(moduleIdMap: seq<(string, int)>, groups: seq<Group>)
    requires GroupsKnown(moduleIdMap, groups) && groups != []
    ensures GroupsKnown(moduleIdMap, groups[1..])
    ensures forall k :: 0 <= k < |groups[0].refs| ==> RefKnown(moduleIdMap, groups[0].refs[k])
  {
    forall h, k | 0 <= h < |groups[1..]| && 0 <= k < |groups[1..][h].refs|
      ensures RefKnown(moduleIdMap, groups[1..][h].refs[k])
    {
      assert groups[1..][h] == groups[h + 1];
    }
  }

  /** A suffix made of a two-number header, a body and a rest: where each part sits. */
  lemma HeaderBodyRest(encoded: seq<int>, i: nat, x: int, y: int, body: seq<int>, rest: seq<int>)
    requires i <= |encoded| && encoded[i..] == [x, y] + body + rest
    ensures i + 1 < |encoded| && encoded[i] == x && encoded[i + 1] == y
    ensures At(encoded, i + 2, body)
    ensures i + 2 + |body| <= |encoded| && encoded[i + 2 + |body|..] == rest
  {
    var s := encoded[i..];
    assert s[0] == x && s[1] == y;
    assert encoded[i + 2..i + 2 + |body|] == s[2..2 + |body|] == body;
    assert encoded[i + 2 + |body|..] == s[2 + |body|..] == rest;
  }

  /** The first group of an encoded list: its header, its entries and the groups after it. */
  lemma FirstGroup(moduleIdMap: seq<(string, int)>, groups: seq<Group>, encoded: seq<int>, i: nat)
    requires GroupsKnown(moduleIdMap, groups) && groups != []
    requires i <= |encoded| && encoded[i..] == Encode(moduleIdMap, groups)
    ensures GroupsKnown(moduleIdMap, groups[1..])
    ensures forall k :: 0 <= k < |groups[0].refs| ==> RefKnown(moduleIdMap, groups[0].refs[k])
    ensures i + 1 < |encoded| && encoded[i] == groups[0].position && Count(encoded, i) == |groups[0].refs|
    ensures At(encoded, i + 2, EncodeRefs(moduleIdMap, groups[0].refs[0..]))
    ensures var next := i + 2 + |EncodeRefs(moduleIdMap, groups[0].refs)|;
      next <= |encoded| && encoded[next..] == Encode(moduleIdMap, groups[1..])
  {
    var g := groups[0];
    KnownTail(moduleIdMap, groups);
    var body := EncodeRefs(moduleIdMap, g.refs);
    var rest := Encode(moduleIdMap, groups[1..]);
    assert Encode(moduleIdMap, groups) == [g.position, |g.refs|] + body + rest;
    HeaderBodyRest(encoded, i, g.position, |g.refs|, body, rest);
    assert g.refs[0..] == g.refs;
  }

  lemma {:induction false} GroupsRoundTrip(moduleIdMap: seq<(string, int)>, groups: seq<Group>, encoded: seq<int>, i: nat)
    requires IdsUsable(moduleIdMap) && GroupsKnown(moduleIdMap, groups)
    requires i <= |encoded| && encoded[i..] == Encode(moduleIdMap, groups)
    ensures Groups(encoded, Inverse(moduleIdMap), i) == Expected(groups)
    decreases |groups|, 1
  {
    if groups == [] {
      assert |encoded[i..]| == 0;
    } else {
      FirstGroupRoundTrip(moduleIdMap, groups, encoded, i);
    }
  }

  lemma {:induction false} FirstGroupRoundTrip(moduleIdMap: seq<(string, int)>, groups: seq<Group>, encoded: seq<int>, i: nat)
    requires IdsUsable(moduleIdMap) && GroupsKnown(moduleIdMap, groups) && groups != []
    requires i <= |encoded| && encoded[i..] == Encode(moduleIdMap, groups)
    ensures Groups(encoded, Inverse(moduleIdMap), i) == Expected(groups)
    decreases |groups|, 0
  {
    var g := groups[0];
    var inv := Inverse(moduleIdMap);
    var ws := RefWrites(g.refs, g.position, 0);
    var next := i + 2 + |EncodeRefs(moduleIdMap, g.refs)|;
    FirstGroupDecoded(moduleIdMap, groups, encoded, i);
    GroupsRoundTrip(moduleIdMap, groups[1..], encoded, next);
    GroupsCons(encoded, inv, i, ws, next);
  }

  /** The first group decodes to its writes and leaves the decoder at the encoding of the rest. */
  lemma FirstGroupDecoded(moduleIdMap: seq<(string, int)>, groups: seq<Group>, encoded: seq<int>, i: nat)
    requires IdsUsable(moduleIdMap) && GroupsKnown(moduleIdMap, groups) && groups != []
    requires i <= |encoded| && encoded[i..] == Encode(moduleIdMap, groups)
    ensures var g := groups[0];
      var next := i + 2 + |EncodeRefs(moduleIdMap, g.refs)|;
      i < |encoded| && GroupsKnown(moduleIdMap, groups[1..]) &&
      Entries(encoded, Inverse(moduleIdMap), i + 2, encoded[i], 0, Count(encoded, i)).0 == RefWrites(g.refs, g.position, 0) &&
      Entries(encoded, Inverse(moduleIdMap), i + 2, encoded[i], 0, Count(encoded, i)).1 == next &&
      next <= |encoded| && encoded[next..] == Encode(moduleIdMap, groups[1..]) &&
      Expected(groups) == RefWrites(g.refs, g.position, 0) + Expected(groups[1..])
  {
    var g := groups[0];
    FirstGroup(moduleIdMap, groups, encoded, i);
    assert g.refs[0..] == g.refs;
    EntriesRoundTrip(moduleIdMap, g.refs, encoded, i + 2, g.position, 0);
  }

  /** The groups from `i` on are the entries of the group at `i` followed by the groups after it. */
  lemma GroupsCons(encoded: seq<int>, inv: map<int, string>, i: nat, ws: seq<Write>, next: nat)
    requires i < |encoded|
    requires Entries(encoded, inv, i + 2, encoded[i], 0, Count(encoded, i)).0 == ws
    requires Entries(encoded, inv, i + 2, encoded[i], 0, Count(encoded, i)).1 == next
    ensures Groups(encoded, inv, i) == ws + Groups(encoded, inv, next)
  {
    GroupsUnfold(encoded, inv, i);
  }

  /** Decoding an encoded list gives back exactly the slot writes of its groups. */
  lemma DecodeEncode(moduleIdMap: seq<(string, int)>, groups: seq<Group>)
    requires IdsUsable(moduleIdMap) && GroupsKnown(moduleIdMap, groups)
    ensures Writes(Encode(moduleIdMap, groups), moduleIdMap) == Expected(groups)
  {
    var encoded := Encode(moduleIdMap, groups);
    assert encoded[0..] == encoded;
    GroupsRoundTrip(moduleIdMap, groups, encoded, 0);
  }

  /**
   * With groups that do not overlap, the decoded result holds every encoded
   * module at its slot, nothing else, and every expectation holds.
   */
  lemma DecodeEncodeResult(moduleIdMap: seq<(string, int)>, groups: seq<Group>)
    requires IdsUsable(moduleIdMap) && GroupsKnown(moduleIdMap, groups)
    requires SlotsDistinct(Expected(groups))
    ensures var result := Apply(Writes(Encode(moduleIdMap, groups), moduleIdMap));
      var ws := Expected(groups);
      result.Keys == Slots(ws) &&
      (forall k :: 0 <= k < |ws| ==> result[ws[k].0] == ws[k].1) &&
      SlotsDistinct(Writes(Encode(moduleIdMap, groups), moduleIdMap))
  {
    DecodeEncode(moduleIdMap, groups);
    ApplyKeys(Expected(groups));
    ApplyDistinct(Expected(groups));
  }

  /**
   * As written, an escaped entry with a module id decodes to the plugin name
   * followed by "![object Object]" instead of the module's name.
   */
  lemma AsWrittenLosesEscapedModule(moduleIdMap: seq<(string, int)>, plugin: string, name: string)
    requires IdsUsable(moduleIdMap) && Known(moduleIdMap, plugin) && Known(moduleIdMap, name)
    requires name != "[object Object]"
    ensures var encoded := EncodeRef(moduleIdMap, Plugin(plugin, name));
      EntryAsWritten(encoded, Inverse(moduleIdMap), 0).0 == plugin + "!" + "[object Object]" &&
      EntryAsWritten(encoded, Inverse(moduleIdMap), 0).0 != Render(Plugin(plugin, name)) &&
      Entry(encoded, Inverse(moduleIdMap), 0).0 == Render(Plugin(plugin, name))
  {
    var inv := Inverse(moduleIdMap);
    var p, n := IdOf(moduleIdMap, plugin), IdOf(moduleIdMap, name);
    var encoded := EncodeRef(moduleIdMap, Plugin(plugin, name));
    assert encoded == [0, p, n];
    InverseIdOf(moduleIdMap, plugin);
    InverseIdOf(moduleIdMap, name);
    assert Read(encoded, 0) == Some(0) && Read(encoded, 1) == Some(p) && Read(encoded, 2) == Some(n);
    assert Lookup(inv, Some(p)) == plugin && Lookup(inv, Some(n)) == name;
    var tail := "[object Object]";
    var asWritten := plugin + "!" + tail;
    assert EntryAsWritten(encoded, inv, 0).0 == asWritten;
    assert Entry(encoded, inv, 0).0 == plugin + "!" + name;
    assert asWritten[|plugin| + 1..] == tail;
    assert (plugin + "!" + name)[|plugin| + 1..] == name;
    assert asWritten != plugin + "!" + name;
  }
}
