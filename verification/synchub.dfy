/**
 * Station-to-server reconciliation (`handleSyncFile`) and the station export
 * (`handleExportForServer`).
 *
 * The incoming package is only `JSON.parse`d before merging, so its elements are
 * arbitrary JSON values: a resident may lack `cpf`, and a `null` element makes
 * the runtime throw as soon as one of its properties is read.
 */
module SyncHub {
  import opened Wrappers
  import opened Json
  import Text
  import DataService

  const FORMAT_ERROR := "Formato de dados incompatível."
  const ERROR_PREFIX := "Erro ao processar arquivo: "
  const EXPORT_PREFIX := "coleta_estacao_"

  /** Why processing a package stopped; the local state is left as it was. */
  datatype SyncError =
    | Incompatible   // `residents` missing or not an array
    | ScriptError    // unparseable text, or a TypeError raised by the runtime

  /** The merged collections and the operator's counters. */
  datatype Tally = Tally(residents: seq<Value>, added: nat, updated: nat)

  /** The result handed to `onMerge`, with the counters shown to the operator. */
  datatype SyncOutcome = SyncOutcome(residents: seq<Value>, territories: seq<Value>, added: nat, updated: nat)

  /** `r.cpf === incoming.cpf` for two values whose properties can be read. */
  predicate Matches(r: Value, incoming: Value) {
    !r.Null? && !incoming.Null? && StrictEq(Prop(r, "cpf"), Prop(incoming, "cpf"))
  }

  /** A resident whose `cpf` can equal something: absent or a primitive. */
  predicate Comparable(v: Value) {
    !v.Null? && StrictEq(Prop(v, "cpf"), Prop(v, "cpf"))
  }

  /** Two positions keep the same identity: nullness and `cpf` agree. */
  predicate SameKey(a: Value, b: Value) {
    a.Null? == b.Null? && Prop(a, "cpf") == Prop(b, "cpf")
  }

  /** No two residents of the list share a `cpf` under `===`. */
  ghost predicate DistinctCpfs(rs: seq<Value>) {
    forall i, j :: 0 <= i < j < |rs| ==> !Matches(rs[i], rs[j])
  }

  /** `merged.findIndex(r => r.cpf === incoming.cpf)`, scanning from position `i`. */
  function FindByCpf(merged: seq<Value>, incoming: Value, i: nat): (r: Result<Option<nat>, SyncError>)
    requires i <= |merged|
    ensures NoNull(merged[i..]) && !incoming.Null? ==> r.Success?
    ensures incoming.Null? ==> (r.Success? <==> i == |merged|)
    ensures r.Success? && r.value.Some? ==>
      i <= r.value.value < |merged| && Matches(merged[r.value.value], incoming)
      && forall j :: i <= j < r.value.value ==> !Matches(merged[j], incoming)
    ensures r.Success? && r.value.None? ==> forall j :: i <= j < |merged| ==> !Matches(merged[j], incoming)
    ensures r.Failure? <==> (exists j :: i <= j < |merged| && (merged[j].Null? || incoming.Null?)
                                 && forall l :: i <= l < j ==> !Matches(merged[l], incoming))
    decreases |merged| - i
  {
    if i == |merged| then Success(None)
    else if merged[i].Null? || incoming.Null? then Failure(ScriptError)
    else if StrictEq(Prop(merged[i], "cpf"), Prop(incoming, "cpf")) then Success(Some(i))
    else
      assert merged[i + 1..] == merged[i..][1..];
      FindByCpf(merged, incoming, i + 1)
  }

  /** A null entry ahead of the match throws, though a later entry has the cpf. */
  lemma NullBeforeMatchThrows()
    ensures var one := Obj(map["cpf" := Str("1")]);
      FindByCpf([Null, one], one, 0).Failure?
  {
  }

  /**
   * components/SyncHub.tsx:68-77, one incoming resident: the first entry with the same
   * `cpf` becomes `{...existing, ...incoming}`, otherwise the resident is appended.
   */
  function MergeOne(t: Tally, incoming: Value): (r: Result<Tally, SyncError>)
    ensures NoNull(t.residents) && !incoming.Null? ==> r.Success? && NoNull(r.value.residents)
    ensures r.Success? ==>
      || (r.value.added == t.added + 1 && r.value.updated == t.updated && |r.value.residents| == |t.residents| + 1)
      || (r.value.added == t.added && r.value.updated == t.updated + 1 && |r.value.residents| == |t.residents|)
    ensures r.Success? ==> forall i :: 0 <= i < |t.residents| ==> SameKey(r.value.residents[i], t.residents[i])
    ensures r.Success? && r.value.updated == t.updated + 1 ==>
      exists i :: 0 <= i < |t.residents| && Matches(t.residents[i], incoming) && Updated(t.residents, r.value.residents, i, incoming)
    ensures r.Success? && r.value.added == t.added + 1 ==>
      (forall i :: 0 <= i < |t.residents| ==> !Matches(t.residents[i], incoming))
      && r.value.residents == t.residents + [incoming]
  {
    var found :- FindByCpf(t.residents, incoming, 0);
    assert t.residents[0..] == t.residents;
    match found
    case Some(i) =>
      var merged := Obj(Spread(t.residents[i]) + Spread(incoming));
      assert StrictEq(Prop(t.residents[i], "cpf"), Prop(incoming, "cpf"));
      var r := Tally(t.residents[i := merged], t.added, t.updated + 1);
      assert Updated(t.residents, r.residents, i, incoming);
      Success(r)
    case None =>
      Success(Tally(t.residents + [incoming], t.added + 1, t.updated))
  }

  /**
   * `after` is `before` with entry `i` replaced by the field union in which `incoming`
   * wins on every field it carries and every other field of the entry is kept.
   */
  ghost predicate Updated(before: seq<Value>, after: seq<Value>, i: nat, incoming: Value) {
    && |after| == |before| && i < |before|
    && (forall j :: 0 <= j < |before| && j != i ==> after[j] == before[j])
    && after[i].Obj?
    && after[i].fields.Keys == Spread(before[i]).Keys + Spread(incoming).Keys
    && (forall k :: k in Spread(incoming) ==> after[i].fields[k] == Spread(incoming)[k])
    && (forall k :: k in Spread(before[i]) && k !in Spread(incoming) ==> after[i].fields[k] == Spread(before[i])[k])
  }

  /** components/SyncHub.tsx:64-77: the incoming residents folded into a copy of the local list. */
  function MergeResidents(local: seq<Value>, incoming: seq<Value>): (r: Result<Tally, SyncError>)
    ensures NoNull(local) && NoNull(incoming) ==> r.Success? && NoNull(r.value.residents)
    ensures r.Success? ==> r.value.added + r.value.updated == |incoming|
    ensures r.Success? ==> |r.value.residents| == |local| + r.value.added
    ensures r.Success? ==> forall i :: 0 <= i < |local| ==> SameKey(r.value.residents[i], local[i])
    decreases |incoming|
  {
    if incoming == [] then Success(Tally(local, 0, 0))
    else
      var t :- MergeResidents(local, incoming[..|incoming| - 1]);
      MergeOne(t, incoming[|incoming| - 1])
  }

  /** The merge never deletes or reorders: a local entry no incoming resident matches stays where it was. */
  lemma {:induction false} MergeKeepsUnmatched(local: seq<Value>, incoming: seq<Value>, i: nat)
    requires MergeResidents(local, incoming).Success?
    requires i < |local|
    requires forall j :: 0 <= j < |incoming| ==> !Matches(local[i], incoming[j])
    ensures MergeResidents(local, incoming).value.residents[i] == local[i]
    decreases |incoming|
  {
    if incoming != [] {
      var prefix := incoming[..|incoming| - 1];
      var last := incoming[|incoming| - 1];
      MergeKeepsUnmatched(local, prefix, i);
      var t := MergeResidents(local, prefix).value;
      var r := MergeOne(t, last).value;
      assert SameKey(t.residents[i], local[i]);
      assert !Matches(t.residents[i], last);
      if r.updated == t.updated + 1 {
        var m :| 0 <= m < |t.residents| && Matches(t.residents[m], last) && Updated(t.residents, r.residents, m, last);
        assert m != i;
      }
    }
  }

  /** Merging keeps `cpf` values unique: a list without duplicates never gains one. */
  lemma {:induction false} MergePreservesDistinctCpfs(local: seq<Value>, incoming: seq<Value>)
    requires MergeResidents(local, incoming).Success?
    requires DistinctCpfs(local)
    ensures DistinctCpfs(MergeResidents(local, incoming).value.residents)
    decreases |incoming|
  {
    if incoming != [] {
      var prefix := incoming[..|incoming| - 1];
      var last := incoming[|incoming| - 1];
      MergePreservesDistinctCpfs(local, prefix);
      var t := MergeResidents(local, prefix).value;
      var r := MergeOne(t, last).value;
      forall i, j | 0 <= i < j < |r.residents|
        ensures !Matches(r.residents[i], r.residents[j])
      {
        if j < |t.residents| {
          assert SameKey(r.residents[i], t.residents[i]);
          assert SameKey(r.residents[j], t.residents[j]);
          assert !Matches(t.residents[i], t.residents[j]);
        } else {
          assert r.added == t.added + 1;
          assert r.residents[j] == last;
          assert r.residents[i] == t.residents[i];
        }
      }
    }
  }

  /** Every comparable incoming resident ends up with an entry carrying its `cpf`. */
  lemma {:induction false} MergeCoversIncoming(local: seq<Value>, incoming: seq<Value>, j: nat)
    requires MergeResidents(local, incoming).Success?
    requires j < |incoming| && Comparable(incoming[j])
    ensures exists i :: (0 <= i < |MergeResidents(local, incoming).value.residents|
      && Matches(MergeResidents(local, incoming).value.residents[i], incoming[j]))
    decreases |incoming|
  {
    var prefix := incoming[..|incoming| - 1];
    var last := incoming[|incoming| - 1];
    var t := MergeResidents(local, prefix).value;
    var r := MergeOne(t, last).value;
    if j < |incoming| - 1 {
      assert incoming[j] == prefix[j];
      MergeCoversIncoming(local, prefix, j);
      var i :| 0 <= i < |t.residents| && Matches(t.residents[i], prefix[j]);
      assert SameKey(r.residents[i], t.residents[i]);
      assert Matches(r.residents[i], incoming[j]);
    } else if r.updated == t.updated + 1 {
      var m :| 0 <= m < |t.residents| && Matches(t.residents[m], last) && Updated(t.residents, r.residents, m, last);
      assert SameKey(r.residents[m], t.residents[m]);
      assert Matches(r.residents[m], incoming[j]);
    } else {
      assert r.residents[|r.residents| - 1] == last;
      assert Matches(r.residents[|r.residents| - 1], incoming[j]);
    }
  }

  /** In a list with unique `cpf` values, at most one entry matches a comparable resident. */
  lemma MatchUnique(rs: seq<Value>, x: Value, a: nat, b: nat)
    requires DistinctCpfs(rs) && Comparable(x)
    requires a < |rs| && b < |rs| && Matches(rs[a], x) && Matches(rs[b], x)
    ensures a == b
  {
    if a < b {
      StrictEqSymmetric(Prop(rs[b], "cpf"), Prop(x, "cpf"));
      StrictEqTransitive(Prop(rs[a], "cpf"), Prop(x, "cpf"), Prop(rs[b], "cpf"));
    } else if b < a {
      StrictEqSymmetric(Prop(rs[a], "cpf"), Prop(x, "cpf"));
      StrictEqTransitive(Prop(rs[b], "cpf"), Prop(x, "cpf"), Prop(rs[a], "cpf"));
    }
  }

  /**
   * Duplicates collapse: when the local list has unique `cpf` values, every comparable
   * incoming resident corresponds to exactly one merged entry.
   */
  lemma MergeCollapsesDuplicates(local: seq<Value>, incoming: seq<Value>)
    requires DistinctCpfs(local)
    ensures MergeResidents(local, incoming).Success? ==>
      var rs := MergeResidents(local, incoming).value.residents;
      forall j, a, b ::
        (0 <= j < |incoming| && Comparable(incoming[j]) && 0 <= a < |rs| && 0 <= b < |rs|
         && Matches(rs[a], incoming[j]) && Matches(rs[b], incoming[j])) ==> a == b
  {
    if MergeResidents(local, incoming).Success? {
      var rs := MergeResidents(local, incoming).value.residents;
      MergePreservesDistinctCpfs(local, incoming);
      forall j, a, b | 0 <= j < |incoming| && Comparable(incoming[j]) && 0 <= a < |rs| && 0 <= b < |rs|
        && Matches(rs[a], incoming[j]) && Matches(rs[b], incoming[j])
        ensures a == b
      {
        MatchUnique(rs, incoming[j], a, b);
      }
    }
  }

  /** `t.street === incoming.street && t.number === incoming.number` for two readable values. */
  predicate SameAddress(t: Value, incoming: Value) {
    && !t.Null? && !incoming.Null?
    && StrictEq(Prop(t, "street"), Prop(incoming, "street"))
    && StrictEq(Prop(t, "number"), Prop(incoming, "number"))
  }

  /** No two entries of the list share a street and number. */
  ghost predicate DistinctAddresses(ts: seq<Value>) {
    forall i, j :: 0 <= i < j < |ts| ==> !SameAddress(ts[i], ts[j])
  }

  predicate AllObjects(vs: seq<Value>) {
    forall i :: 0 <= i < |vs| ==> vs[i].Obj?
  }

  /** `merged.find(t => <same address>)`, scanning from position `i`; the index of the entry found. */
  function FindAddress(merged: seq<Value>, incoming: Value, i: nat): (r: Result<Option<nat>, SyncError>)
    requires i <= |merged|
    ensures NoNull(merged[i..]) && !incoming.Null? ==> r.Success?
    ensures r.Success? && r.value.Some? ==>
      i <= r.value.value < |merged| && SameAddress(merged[r.value.value], incoming)
      && forall j :: i <= j < r.value.value ==> !SameAddress(merged[j], incoming)
    ensures r.Success? && r.value.None? ==> forall j :: i <= j < |merged| ==> !SameAddress(merged[j], incoming)
    ensures r.Failure? <==> (exists j :: i <= j < |merged| && (merged[j].Null? || incoming.Null?)
                                 && forall l :: i <= l < j ==> !SameAddress(merged[l], incoming))
    decreases |merged| - i
  {
    if i == |merged| then Success(None)
    else if merged[i].Null? || incoming.Null? then Failure(ScriptError)
    else if SameAddress(merged[i], incoming) then Success(Some(i))
    else
      assert merged[i + 1..] == merged[i..][1..];
      FindAddress(merged, incoming, i + 1)
  }

  /**
   * components/SyncHub.tsx:81-83, one incoming territory: appended when `find` returns
   * nothing (or a falsy entry), otherwise dropped; existing entries are never touched.
   */
  function AddTerritory(merged: seq<Value>, incoming: Value): (r: Result<seq<Value>, SyncError>)
    ensures NoNull(merged) && !incoming.Null? ==> r.Success? && NoNull(r.value)
    ensures r.Success? ==> r.value == merged || r.value == merged + [incoming]
    ensures r.Success? && AllObjects(merged) ==>
      (r.value == merged + [incoming] <==> forall j :: 0 <= j < |merged| ==> !SameAddress(merged[j], incoming))
  {
    var found :- FindAddress(merged, incoming, 0);
    assert merged[0..] == merged;
    if found.None? || !Truthy(merged[found.value]) then Success(merged + [incoming]) else Success(merged)
  }

  /**
   * `find` stops at the first entry with the address even when that entry is falsy:
   * a `0` whose missing street and number equal the incoming ones lets the territory in.
   */
  lemma FalsyFirstMatchPushed()
    ensures AddTerritory([Num(0), Obj(map[])], Obj(map[])) == Success([Num(0), Obj(map[]), Obj(map[])])
  {
    var merged, t := [Num(0), Obj(map[])], Obj(map[]);
    assert Prop(t, "street") == None && Prop(t, "number") == None;
    assert SameAddress(merged[0], t);
    assert FindAddress(merged, t, 0) == Success(Some(0));
    assert !Truthy(merged[0]);
    assert merged + [t] == [Num(0), Obj(map[]), Obj(map[])];
  }

  /** components/SyncHub.tsx:79-84: the incoming territories folded into a copy of the local list. */
  function MergeTerritories(local: seq<Value>, incoming: seq<Value>): (r: Result<seq<Value>, SyncError>)
    ensures NoNull(local) && NoNull(incoming) ==> r.Success? && NoNull(r.value)
    ensures r.Success? ==> |local| <= |r.value| <= |local| + |incoming| && r.value[..|local|] == local
    ensures r.Success? && AllObjects(local) && AllObjects(incoming) ==> AllObjects(r.value)
    decreases |incoming|
  {
    if incoming == [] then Success(local)
    else
      var merged :- MergeTerritories(local, incoming[..|incoming| - 1]);
      var r :- AddTerritory(merged, incoming[|incoming| - 1]);
      assert r[..|local|] == merged[..|local|];
      Success(r)
  }

  /** Address uniqueness is preserved when every entry is an object. */
  lemma {:induction false} MergeTerritoriesDistinct(local: seq<Value>, incoming: seq<Value>)
    requires AllObjects(local) && AllObjects(incoming)
    requires DistinctAddresses(local)
    ensures MergeTerritories(local, incoming).Success?
    ensures DistinctAddresses(MergeTerritories(local, incoming).value)
    decreases |incoming|
  {
    if incoming != [] {
      var prefix := incoming[..|incoming| - 1];
      MergeTerritoriesDistinct(local, prefix);
      var merged := MergeTerritories(local, prefix).value;
      var r := AddTerritory(merged, incoming[|incoming| - 1]).value;
      assert forall i, j :: 0 <= i < j < |r| && j < |merged| ==> r[i] == merged[i] && r[j] == merged[j];
    }
  }

  /** Every incoming territory whose address is comparable ends up represented by some entry. */
  lemma {:induction false} MergeTerritoriesCover(local: seq<Value>, incoming: seq<Value>, j: nat)
    requires AllObjects(local) && AllObjects(incoming)
    requires j < |incoming|
    requires SameAddress(incoming[j], incoming[j])
    ensures MergeTerritories(local, incoming).Success?
    ensures exists i :: (0 <= i < |MergeTerritories(local, incoming).value|
      && SameAddress(MergeTerritories(local, incoming).value[i], incoming[j]))
    decreases |incoming|
  {
    var prefix := incoming[..|incoming| - 1];
    var last := incoming[|incoming| - 1];
    var merged := MergeTerritories(local, prefix).value;
    var r := AddTerritory(merged, last).value;
    assert r[..|merged|] == merged;
    if j < |incoming| - 1 {
      assert incoming[j] == prefix[j];
      MergeTerritoriesCover(local, prefix, j);
      var i :| 0 <= i < |merged| && SameAddress(merged[i], prefix[j]);
      assert r[i] == merged[i];
    } else if r == merged + [last] {
      assert SameAddress(r[|merged|], incoming[j]);
    } else {
      var i :| 0 <= i < |merged| && SameAddress(merged[i], last);
      assert r[i] == merged[i];
    }
  }

  /** An incoming copy of a known address, with an extra field, leaves the local entry untouched. */
  lemma TerritoryDeduplicated()
    ensures var local := [Obj(map["street" := Str("Main"), "number" := Str("10")])];
      var incoming := [Obj(map["street" := Str("Main"), "number" := Str("10"), "block" := Str("X")])];
      MergeTerritories(local, incoming) == Success(local)
  {
    var local := [Obj(map["street" := Str("Main"), "number" := Str("10")])];
    var inc := Obj(map["street" := Str("Main"), "number" := Str("10"), "block" := Str("X")]);
    assert [inc][..0] == [];
    assert SameAddress(local[0], inc);
  }

  /** Does the parsed package carry a residents array? */
  predicate HasResidentArray(bundle: Value) {
    var o := Prop(bundle, "residents");
    Present(o) && o.value.Arr?
  }

  /**
   * `bundle.territories?.forEach(...)` runs to the end: the field is missing or null,
   * or it is an array that merges without a runtime error.
   */
  predicate TerritoriesAccepted(local: seq<Value>, ts: Option<Value>) {
    ts.None? || ts.value.Null? || (ts.value.Arr? && MergeTerritories(local, ts.value.items).Success?)
  }

  /**
   * components/SyncHub.tsx:56-84, `handleSyncFile` once the file text has been read.
   * `parsed` is the result of `JSON.parse` (None when it throws). On success the
   * outcome is what `onMerge` receives, with the counters of the status message.
   */
  function HandleSyncFile(localResidents: seq<Value>, localTerritories: seq<Value>, parsed: Option<Value>)
    : (r: Result<SyncOutcome, SyncError>)
    ensures parsed.None? ==> r == Failure(ScriptError)
    ensures parsed.Some? && !parsed.value.Null? && !HasResidentArray(parsed.value) ==> r == Failure(Incompatible)
    ensures r.Success? ==> parsed.Some? && HasResidentArray(parsed.value)
    ensures r.Success? ==>
      var incoming := Prop(parsed.value, "residents").value.items;
      && r.value.added + r.value.updated == |incoming|
      && |r.value.residents| == |localResidents| + r.value.added
    ensures r.Success? ==>
      |localTerritories| <= |r.value.territories| && r.value.territories[..|localTerritories|] == localTerritories
    ensures r.Success? && (Prop(parsed.value, "territories").None? || Prop(parsed.value, "territories").value.Null?) ==>
      r.value.territories == localTerritories
    ensures r.Success? <==>
      && parsed.Some? && HasResidentArray(parsed.value)
      && MergeResidents(localResidents, Prop(parsed.value, "residents").value.items).Success?
      && TerritoriesAccepted(localTerritories, Prop(parsed.value, "territories"))
    ensures r.Success? ==>
      var tally := MergeResidents(localResidents, Prop(parsed.value, "residents").value.items).value;
      r.value.residents == tally.residents && r.value.added == tally.added && r.value.updated == tally.updated
    ensures r.Success? && Prop(parsed.value, "territories").Some? && Prop(parsed.value, "territories").value.Arr? ==>
      MergeTerritories(localTerritories, Prop(parsed.value, "territories").value.items) == Success(r.value.territories)
  {
    if parsed.None? || parsed.value.Null? then Failure(ScriptError)
    else if !HasResidentArray(parsed.value) then Failure(Incompatible)
    else
      var tally :- MergeResidents(localResidents, Prop(parsed.value, "residents").value.items);
      var ts := Prop(parsed.value, "territories");
      var territories :-
        if ts.None? || ts.value.Null? then Success(localTerritories)
        else if ts.value.Arr? then MergeTerritories(localTerritories, ts.value.items)
        else Failure(ScriptError);
      Success(SyncOutcome(tally.residents, territories, tally.added, tally.updated))
  }

  /** The residents `onMerge` receives keep distinct cpfs when the local ones were distinct. */
  lemma SyncKeepsDistinctCpfs(localResidents: seq<Value>, localTerritories: seq<Value>, parsed: Option<Value>)
    requires HandleSyncFile(localResidents, localTerritories, parsed).Success?
    requires DistinctCpfs(localResidents)
    ensures DistinctCpfs(HandleSyncFile(localResidents, localTerritories, parsed).value.residents)
  {
    MergePreservesDistinctCpfs(localResidents, Prop(parsed.value, "residents").value.items);
  }

  /** The status line shown for a failed package; a runtime TypeError's own text is not modelled. */
  function ErrorStatus(e: SyncError): Option<string>
  {
    match e
    case Incompatible => Some(ERROR_PREFIX + FORMAT_ERROR)
    case ScriptError => None
  }

  /**
   * components/SyncHub.tsx:33: `coleta_estacao_<city, whitespace runs as _>_<ISO date>.json`.
   */
  function ExportFileName(city: string, now: string): (name: string)
    ensures Text.StartsWith(name, EXPORT_PREFIX)
    ensures |name| >= 5 && name[|name| - 5..] == ".json"
    ensures name == EXPORT_PREFIX + Text.CollapseSpaces(city) + "_" + DataService.Today(now) + ".json"
  {
    var name := EXPORT_PREFIX + Text.CollapseSpaces(city) + "_" + DataService.Today(now) + ".json";
    assert name[..|EXPORT_PREFIX|] == EXPORT_PREFIX;
    assert name[|name| - 5..] == ".json";
    name
  }

  /** With an ISO timestamp (no whitespace) the file name has no whitespace, whatever the city. */
  lemma ExportFileNameNoSpace(city: string, now: string)
    requires Text.NoSpace(now)
    ensures Text.NoSpace(ExportFileName(city, now))
  {
    var date := DataService.Today(now);
    assert Text.NoSpace(date) by {
      forall i | 0 <= i < |date| ensures !Text.IsSpace(date[i]) { assert date[i] == now[i]; }
    }
    assert Text.NoSpace(EXPORT_PREFIX) && Text.NoSpace("_") && Text.NoSpace(".json");
    Text.NoSpaceConcat(EXPORT_PREFIX, Text.CollapseSpaces(city));
    Text.NoSpaceConcat(EXPORT_PREFIX + Text.CollapseSpaces(city), "_");
    Text.NoSpaceConcat(EXPORT_PREFIX + Text.CollapseSpaces(city) + "_", date);
    Text.NoSpaceConcat(EXPORT_PREFIX + Text.CollapseSpaces(city) + "_" + date, ".json");
  }

  /** A station's package: the indexed bundle and the name of the file it is saved under. */
  datatype StationPackage = StationPackage(bundle: DataService.Bundle, fileName: string)

  /** The object `handleExportForServer` passes to the indexer. */
  function ExportInput(institution: Record, residents: seq<Value>, territories: seq<Value>, now: string): Value
  {
    Obj(map[
      "institution" := Obj(institution),
      "residents" := Arr(residents),
      "territories" := Arr(territories),
      "timestamp" := Str(now)])
  }

  /** What the indexer reads from the export input: no agents or logs, the three given blocks. */
  lemma ExportInputFields(institution: Record, residents: seq<Value>, territories: seq<Value>, now: string)
    ensures var f := Spread(ExportInput(institution, residents, territories, now));
      && Field(f, "agents") == None && Field(f, "logs") == None
      && Field(f, "residents") == Some(Arr(residents))
      && Field(f, "territories") == Some(Arr(territories))
      && Field(f, "institution") == Some(Obj(institution))
  {
  }

  /** The export input is indexable exactly when no resident and no territory is null. */
  lemma ExportIndexable(institution: Record, residents: seq<Value>, territories: seq<Value>, now: string)
    ensures DataService.Indexable(ExportInput(institution, residents, territories, now))
      <==> NoNull(residents) && NoNull(territories)
  {
    ExportInputFields(institution, residents, territories, now);
  }

  /**
   * The bundle the station receives: current schema version and clock, no agents or
   * logs, the corrected institution, and each resident and territory corrected in place.
   */
  ghost predicate StationBundle(b: DataService.Bundle, institution: Record, residents: seq<Value>,
                                territories: seq<Value>, now: string) {
    && b.version == DataService.SCHEMA_VERSION && b.timestamp == now
    && b.agents == [] && b.logs == Arr([])
    && b.institution == DataService.FixInstitution(Some(Obj(institution)))
    && |b.residents| == |residents| && |b.territories| == |territories|
    && (forall i :: 0 <= i < |residents| ==>
          DataService.Corrected(DataService.ResidentRow, residents[i], b.residents[i], now))
    && (forall i :: 0 <= i < |territories| ==>
          DataService.Corrected(DataService.TerritoryRow, territories[i], b.territories[i], now))
  }

  /** The fixed parts of the indexed export: version, clock, empty agents and logs, the institution. */
  lemma ExportIndexedHeader(institution: Record, residents: seq<Value>, territories: seq<Value>,
                            now: string, ids: DataService.IdSource)
    requires NoNull(residents) && NoNull(territories)
    ensures DataService.Index(ExportInput(institution, residents, territories, now), now, ids).Some?
    ensures var b := DataService.Index(ExportInput(institution, residents, territories, now), now, ids).value.value;
      && b.version == DataService.SCHEMA_VERSION && b.timestamp == now
      && b.agents == [] && b.logs == Arr([])
      && b.institution == DataService.FixInstitution(Some(Obj(institution)))
  {
    ExportIndexable(institution, residents, territories, now);
    ExportInputFields(institution, residents, territories, now);
  }

  /** The records of the indexed export: each one the correction of the record at its position. */
  lemma ExportIndexedRecords(institution: Record, residents: seq<Value>, territories: seq<Value>,
                             now: string, ids: DataService.IdSource)
    requires NoNull(residents) && NoNull(territories)
    ensures DataService.Index(ExportInput(institution, residents, territories, now), now, ids).Some?
    ensures var b := DataService.Index(ExportInput(institution, residents, territories, now), now, ids).value.value;
      && DataService.CollectionCorrected(DataService.ResidentRow, Some(Arr(residents)), b.residents, now)
      && DataService.CollectionCorrected(DataService.TerritoryRow, Some(Arr(territories)), b.territories, now)
  {
    ExportIndexable(institution, residents, territories, now);
    ExportInputFields(institution, residents, territories, now);
  }

  /** An array collection is corrected in place: same length, record i from record i. */
  lemma CorrectedInPlace(kind: DataService.Kind, xs: seq<Value>, out: seq<Value>, now: string)
    requires DataService.CollectionCorrected(kind, Some(Arr(xs)), out, now)
    ensures |out| == |xs|
    ensures forall i :: 0 <= i < |xs| ==> DataService.Corrected(kind, xs[i], out[i], now)
  {
    assert Present(Some(Arr(xs)));
  }

  /** What the indexer makes of the export input: fails only on a null record, and keeps the given blocks. */
  lemma ExportIndexed(institution: Record, residents: seq<Value>, territories: seq<Value>,
                      now: string, ids: DataService.IdSource)
    ensures var r := DataService.Index(ExportInput(institution, residents, territories, now), now, ids);
      && (r.Some? <==> NoNull(residents) && NoNull(territories))
      && (r.Some? ==> StationBundle(r.value.value, institution, residents, territories, now))
  {
    ExportIndexable(institution, residents, territories, now);
    if DataService.Index(ExportInput(institution, residents, territories, now), now, ids).Some? {
      var b := DataService.Index(ExportInput(institution, residents, territories, now), now, ids).value.value;
      ExportIndexedHeader(institution, residents, territories, now, ids);
      ExportIndexedRecords(institution, residents, territories, now, ids);
      CorrectedInPlace(DataService.ResidentRow, residents, b.residents, now);
      CorrectedInPlace(DataService.TerritoryRow, territories, b.territories, now);
    }
  }

  /**
   * components/SyncHub.tsx:21-33, `handleExportForServer`: the package is the indexed
   * bundle of institution, residents and territories; reading a non-string city throws.
   */
  function ExportForServer(institution: Record, residents: seq<Value>, territories: seq<Value>,
                           now: string, ids: DataService.IdSource): (r: Result<StationPackage, SyncError>)
    ensures r.Success? <==> NoNull(residents) && NoNull(territories) && "city" in institution && institution["city"].Str?
    ensures r.Success? ==> StationBundle(r.value.bundle, institution, residents, territories, now)
    ensures r.Success? ==> var d := DataService.Index(ExportInput(institution, residents, territories, now), now, ids);
      d.Some? && d.value.value == r.value.bundle
    ensures r.Success? ==> r.value.fileName == ExportFileName(institution["city"].s, now)
  {
    ExportIndexed(institution, residents, territories, now, ids);
    match DataService.Index(ExportInput(institution, residents, territories, now), now, ids)
    case None => Failure(ScriptError)
    case Some(d) =>
      if "city" in institution && institution["city"].Str? then
        Success(StationPackage(d.value, ExportFileName(institution["city"].s, now)))
      else
        Failure(ScriptError)
  }
}
