/**
 * The bundle indexer (`runDataIndexer`) and the error mapping of `importBackup`.
 *
 * The indexer receives whatever `JSON.parse` produced and rebuilds a complete
 * backup bundle: fixed schema version, the caller's clock value as timestamp,
 * a defaulted institution, every agent, resident and territory with its
 * required fields filled in by JavaScript falsiness, and at most 1000 logs.
 * It throws (a TypeError in the source) when a collection is neither falsy nor
 * an array, when a collection holds `null`, or when the bundle itself is `null`.
 */
module DataService {
  import opened Wrappers
  import opened Json
  import Text
  import Types
  import Seqs

  /** A fresh identifier: the base-36 digits of one `Math.random()` draw. */
  type Token = s: string | s != [] witness "0"

  /** The random-id oracle: the n-th draw of the run. */
  type IdSource = nat -> Token

  /** A value built while drawing ids, with the index of the next unused draw. */
  datatype Drawn<T> = Drawn(value: T, next: nat)

  const SCHEMA_VERSION := "2.5"
  const LOG_CAP := 1000
  const PLACEHOLDER_CNPJ := "00.000.000/0001-00"
  const UNKNOWN_CITY := "Não Informada"
  const AGENT_NAME := "Agente Operacional"
  const AGENT_USER_PREFIX := "agente."
  const RESIDENT_NAME := "Morador Não Identificado"
  const PLACEHOLDER_CPF := "000.000.000-00"
  const RESIDENT_NEIGHBORHOOD := "Bairro Não Informado"
  const TERRITORY_NEIGHBORHOOD := "Geral"
  const INVALID_BACKUP := "Arquivo de backup inválido ou corrompido. Certifique-se de que é um JSON válido do sistema."

  /** The institution used when the bundle has none. */
  const PlaceholderInstitution: Value := Obj(map[
    "name" := Str("Prefeitura Municipal"),
    "logoUrl" := Str("https://placehold.co/100x100/2563eb/white?text=LOGO"),
    "cnpj" := Str(PLACEHOLDER_CNPJ),
    "city" := Str("Sede Central"),
    "systemMode" := Str(Types.SERVER)])

  /** The education record given to a resident that has none. */
  const EmptyEducation: Value := Obj(map[
    "isStudying" := Bool(false), "schoolName" := Str(""), "grade" := Str("")])

  /** The three record collections of a bundle. */
  datatype Kind = AgentRow | ResidentRow | TerritoryRow

  /** The date part of an ISO timestamp, `now.split('T')[0]`. */
  function Today(now: string): string
  {
    Text.Before(now, 'T')
  }

  /** Defaulting policy: the fixed default of each constant-defaulted field. */
  function Defaults(kind: Kind, now: string): map<string, Value>
  {
    match kind
    case AgentRow => map["role" := Str(Types.OPERATOR), "name" := Str(AGENT_NAME)]
    case ResidentRow => map[
      "name" := Str(RESIDENT_NAME),
      "relationship" := Str(Types.OTHER),
      "cpf" := Str(PLACEHOLDER_CPF),
      "rg" := Str(""),
      "neighborhood" := Str(RESIDENT_NEIGHBORHOOD),
      "birthDate" := Str(Today(now)),
      "education" := EmptyEducation]
    case TerritoryRow => map["neighborhood" := Str(TERRITORY_NEIGHBORHOOD)]
  }

  /** Defaulting policy: the fields defaulted from a fresh random draw. */
  function DrawnKeys(kind: Kind): set<string>
  {
    if kind == AgentRow then {"id", "username"} else {"id"}
  }

  /** Every field the indexer writes on a record of the collection. */
  function Listed(kind: Kind, now: string): set<string>
  {
    Defaults(kind, now).Keys + DrawnKeys(kind)
  }

  /** How many random draws a record of the collection needs. */
  function Misses(kind: Kind, a: Record): nat
  {
    (if Present(Field(a, "id")) then 0 else 1)
      + (if kind == AgentRow && !Present(Field(a, "username")) then 1 else 0)
  }

  /**
   * A record a defaulting pass leaves as it is: every constant-defaulted field is
   * truthy or already holds its default, and every drawn field is truthy.
   */
  ghost predicate SettledBy(v: Value, ds: map<string, Value>, dk: set<string>) {
    && v.Obj?
    && (forall key :: key in ds ==> key in v.fields && (Truthy(v.fields[key]) || v.fields[key] == ds[key]))
    && (forall key :: key in dk ==> Present(Field(v.fields, key)))
  }

  /**
   * `after` is the object with fields `a` corrected by a defaulting pass: every field
   * outside the policy is copied, a truthy policy field is kept, a falsy one takes its
   * default, and the result is settled.
   */
  ghost predicate CorrectedBy(a: Record, after: Value, ds: map<string, Value>, dk: set<string>) {
    && after.Obj?
    && after.fields.Keys == a.Keys + ds.Keys + dk
    && (forall key :: key in a && key !in ds && key !in dk ==> after.fields[key] == a[key])
    && (forall key :: (key in ds || key in dk) && Present(Field(a, key)) ==> after.fields[key] == a[key])
    && (forall key :: key in ds && !Present(Field(a, key)) ==> after.fields[key] == ds[key])
    && SettledBy(after, ds, dk)
  }

  ghost predicate Settled(kind: Kind, v: Value, now: string) {
    SettledBy(v, Defaults(kind, now), DrawnKeys(kind))
  }

  /** `after` is `before` as the indexer corrects a record of the collection. */
  ghost predicate Corrected(kind: Kind, before: Value, after: Value, now: string) {
    CorrectedBy(Spread(before), after, Defaults(kind, now), DrawnKeys(kind))
  }

  /** `{...a, f: a.f || d, ...}` for every field `f` of the default table. */
  function Fill(a: Record, ds: map<string, Value>): (r: Record)
    ensures r.Keys == a.Keys + ds.Keys
    ensures forall key :: key in a && key !in ds ==> r[key] == a[key]
    ensures forall key :: key in ds ==> r[key] == Or(Field(a, key), ds[key])
  {
    a + map key | key in ds :: Or(Field(a, key), ds[key])
  }

  /** `a.f || <fresh draw>`: a drawn field, with the index of the next draw. */
  function DrawField(a: Record, key: string, prefix: string, ids: IdSource, k: nat): (d: Drawn<Value>)
    ensures Present(Some(d.value))
    ensures Present(Field(a, key)) ==> d == Drawn(a[key], k)
    ensures !Present(Field(a, key)) ==> d == Drawn(Str(prefix + ids(k)), k + 1)
  {
    if Present(Field(a, key)) then Drawn(a[key], k) else Drawn(Str(prefix + ids(k)), k + 1)
  }

  /** Filling the default table and then the drawn fields corrects the record. */
  lemma FillCorrected(a: Record, ds: map<string, Value>, drawn: map<string, Value>, dk: set<string>)
    requires dk == drawn.Keys && ds.Keys !! dk
    requires forall key :: key in drawn ==> Truthy(drawn[key])
    requires forall key :: key in drawn && Present(Field(a, key)) ==> drawn[key] == a[key]
    ensures CorrectedBy(a, Obj(Fill(a, ds) + drawn), ds, dk)
  {
  }

  /** Filling the default table alone, with nothing drawn, corrects the record. */
  lemma FillCorrectedNoDraws(a: Record, ds: map<string, Value>)
    ensures CorrectedBy(a, Obj(Fill(a, ds)), ds, {})
  {
    FillCorrected(a, ds, map[], {});
    assert Fill(a, ds) + map[] == Fill(a, ds);
  }

  /** Writing back values a record already holds changes nothing. */
  lemma OverwriteSame(a: Record, drawn: map<string, Value>)
    requires forall key :: key in drawn ==> key in a && a[key] == drawn[key]
    ensures a + drawn == a
  {
  }

  /** A settled record is a fixed point of filling its default table. */
  lemma FillSettled(a: Record, ds: map<string, Value>, dk: set<string>)
    requires SettledBy(Obj(a), ds, dk)
    ensures Fill(a, ds) == a
  {
  }

  /** services/dataService.ts:24-30, one agent: id, role, name and username defaulted. */
  function FixAgent(v: Value, now: string, ids: IdSource, k: nat): (r: Drawn<Value>)
    requires !v.Null?
    ensures Corrected(AgentRow, v, r.value, now)
    ensures r.next == k + Misses(AgentRow, Spread(v))
    ensures !Present(Field(Spread(v), "id")) ==> r.value.fields["id"] == Str(ids(k))
    ensures !Present(Field(Spread(v), "username")) ==>
      r.value.fields["username"] == Str(AGENT_USER_PREFIX + ids(if Present(Field(Spread(v), "id")) then k else k + 1))
  {
    var a := Spread(v);
    var id := DrawField(a, "id", "", ids, k);
    var user := DrawField(a, "username", AGENT_USER_PREFIX, ids, id.next);
    var drawn := map["id" := id.value, "username" := user.value];
    FillCorrected(a, Defaults(AgentRow, now), drawn, DrawnKeys(AgentRow));
    Drawn(Obj(Fill(a, Defaults(AgentRow, now)) + drawn), user.next)
  }

  /** services/dataService.ts:31-41, one resident: id and the seven required fields defaulted. */
  function FixResident(v: Value, now: string, ids: IdSource, k: nat): (r: Drawn<Value>)
    requires !v.Null?
    ensures Corrected(ResidentRow, v, r.value, now)
    ensures r.next == k + Misses(ResidentRow, Spread(v))
    ensures !Present(Field(Spread(v), "id")) ==> r.value.fields["id"] == Str(ids(k))
  {
    var a := Spread(v);
    var id := DrawField(a, "id", "", ids, k);
    var drawn := map["id" := id.value];
    FillCorrected(a, Defaults(ResidentRow, now), drawn, DrawnKeys(ResidentRow));
    Drawn(Obj(Fill(a, Defaults(ResidentRow, now)) + drawn), id.next)
  }

  /** services/dataService.ts:43-47, one territory: id and neighborhood defaulted. */
  function FixTerritory(v: Value, now: string, ids: IdSource, k: nat): (r: Drawn<Value>)
    requires !v.Null?
    ensures Corrected(TerritoryRow, v, r.value, now)
    ensures r.next == k + Misses(TerritoryRow, Spread(v))
    ensures !Present(Field(Spread(v), "id")) ==> r.value.fields["id"] == Str(ids(k))
  {
    var a := Spread(v);
    var id := DrawField(a, "id", "", ids, k);
    var drawn := map["id" := id.value];
    FillCorrected(a, Defaults(TerritoryRow, now), drawn, DrawnKeys(TerritoryRow));
    Drawn(Obj(Fill(a, Defaults(TerritoryRow, now)) + drawn), id.next)
  }

  /**
   * One record of a collection. Reading a property of `null` throws, so a null
   * element aborts the indexing; any other element is corrected.
   */
  function FixItem(kind: Kind, v: Value, now: string, ids: IdSource, k: nat): (r: Option<Drawn<Value>>)
    ensures r.Some? <==> !v.Null?
    ensures r.Some? ==> Corrected(kind, v, r.value.value, now)
    ensures r.Some? ==> r.value.next == k + Misses(kind, Spread(v))
  {
    if v.Null? then None
    else
      match kind
      case AgentRow => Some(FixAgent(v, now, ids, k))
      case ResidentRow => Some(FixResident(v, now, ids, k))
      case TerritoryRow => Some(FixTerritory(v, now, ids, k))
  }

  /** A settled record passes through the indexer unchanged and draws nothing. */
  lemma FixSettled(kind: Kind, v: Value, now: string, ids: IdSource, k: nat)
    requires Settled(kind, v, now)
    ensures FixItem(kind, v, now, ids, k) == Some(Drawn(v, k))
  {
    var a := v.fields;
    FillSettled(a, Defaults(kind, now), DrawnKeys(kind));
    assert Present(Field(a, "id"));
    assert kind == AgentRow ==> Present(Field(a, "username"));
    var r := FixItem(kind, v, now, ids, k).value;
    assert r.value.fields == a by {
      match kind
      case AgentRow => OverwriteSame(a, map["id" := a["id"], "username" := a["username"]]);
      case ResidentRow => OverwriteSame(a, map["id" := a["id"]]);
      case TerritoryRow => OverwriteSame(a, map["id" := a["id"]]);
    }
  }

  /** The random draws a whole collection needs. */
  function TotalMisses(kind: Kind, vs: seq<Value>): nat
  {
    if vs == [] then 0 else Misses(kind, Spread(vs[0])) + TotalMisses(kind, vs[1..])
  }

  /** `.map` over one collection, drawing ids left to right. */
  function FixList(kind: Kind, vs: seq<Value>, now: string, ids: IdSource, k: nat): (r: Option<Drawn<seq<Value>>>)
    ensures r.Some? <==> NoNull(vs)
    ensures r.Some? ==> |r.value.value| == |vs|
    ensures r.Some? ==> forall i :: 0 <= i < |vs| ==> Corrected(kind, vs[i], r.value.value[i], now)
    ensures r.Some? ==> r.value.next == k + TotalMisses(kind, vs)
  {
    if vs == [] then Some(Drawn([], k))
    else
      NoNullCons(vs);
      var h :- FixItem(kind, vs[0], now, ids, k);
      var t :- FixList(kind, vs[1..], now, ids, h.next);
      Seqs.ConsPointwise((x: Value, y: Value) => Corrected(kind, x, y, now), vs, h.value, t.value);
      Some(Drawn([h.value] + t.value, t.next))
  }

  /** `FixItem` as a step function over a record and a draw position. */
  function ItemStep(kind: Kind, now: string, ids: IdSource): (Value, nat) -> Option<Drawn<Value>>
  {
    (v: Value, at: nat) => FixItem(kind, v, now, ids, at)
  }

  /**
   * Draws are consumed left to right: element i of the output is what `FixItem`
   * makes of `vs[i]` with the source positioned after the draws of `vs[..i]`,
   * and it leaves the source after those of `vs[..i + 1]`.
   */
  lemma {:induction false} FixListSteps(kind: Kind, vs: seq<Value>, now: string, ids: IdSource, k: nat)
    requires NoNull(vs)
    ensures forall i :: 0 <= i < |vs| ==> StepAt(ItemStep(kind, now, ids), kind, vs, k, FixList(kind, vs, now, ids, k).value.value, i)
  {
    if vs != [] {
      NoNullCons(vs);
      var h := FixItem(kind, vs[0], now, ids, k).value;
      var t := FixList(kind, vs[1..], now, ids, h.next).value;
      assert FixList(kind, vs, now, ids, k).value.value == [h.value] + t.value;
      FixListSteps(kind, vs[1..], now, ids, h.next);
      assert ItemStep(kind, now, ids)(vs[0], k) == Some(h);
      StepAtCons(ItemStep(kind, now, ids), kind, vs, k, h.value, h.next, t.value);
    }
  }

  /** Element i of `out` is what `step` makes of `vs[i]` after the draws of `vs[..i]`. */
  ghost predicate StepAt(step: (Value, nat) -> Option<Drawn<Value>>, kind: Kind, vs: seq<Value>, k: nat, out: seq<Value>, i: nat)
    requires i < |vs| && |out| == |vs|
  {
    step(vs[i], k + TotalMisses(kind, vs[..i])) == Some(Drawn(out[i], k + TotalMisses(kind, vs[..i + 1])))
  }

  /** Placing the head's result before a tail stepped from the next draw keeps `StepAt`. */
  lemma StepAtCons(step: (Value, nat) -> Option<Drawn<Value>>, kind: Kind, vs: seq<Value>, k: nat, h: Value, next: nat, t: seq<Value>)
    requires vs != [] && |t| == |vs| - 1
    requires next == k + Misses(kind, Spread(vs[0]))
    requires step(vs[0], k) == Some(Drawn(h, next))
    requires forall i :: 0 <= i < |t| ==> StepAt(step, kind, vs[1..], next, t, i)
    ensures forall i :: 0 <= i < |vs| ==> StepAt(step, kind, vs, k, [h] + t, i)
  {
    forall i | 0 <= i < |vs| ensures StepAt(step, kind, vs, k, [h] + t, i) {
      if i == 0 {
        assert vs[..0] == [] && vs[..1] == [vs[0]] && vs[..1][1..] == [];
      } else {
        assert StepAt(step, kind, vs[1..], next, t, i - 1);
        DrawPositions(kind, vs, k, next, i);
        Seqs.ShiftIndex(vs, h, t, i);
      }
    }
  }

  /** The draw positions of element i of `vs` are those of element i - 1 of its tail, shifted by the head's draws. */
  lemma DrawPositions(kind: Kind, vs: seq<Value>, k: nat, next: nat, i: nat)
    requires 0 < i < |vs| && next == k + Misses(kind, Spread(vs[0]))
    ensures next + TotalMisses(kind, vs[1..][..i - 1]) == k + TotalMisses(kind, vs[..i])
    ensures next + TotalMisses(kind, vs[1..][..i - 1 + 1]) == k + TotalMisses(kind, vs[..i + 1])
  {
    TotalMissesPrefix(kind, vs, i);
    TotalMissesPrefix(kind, vs, i + 1);
  }

  /** The draws before element i: those of the head, then those of the tail before it. */
  lemma TotalMissesPrefix(kind: Kind, vs: seq<Value>, i: nat)
    requires 0 < i <= |vs|
    ensures TotalMisses(kind, vs[..i]) == Misses(kind, Spread(vs[0])) + TotalMisses(kind, vs[1..][..i - 1])
  {
    var pre := vs[..i];
    assert pre[0] == vs[0] && pre[1..] == vs[1..][..i - 1];
  }

  /** A collection field the indexer accepts: falsy (read as `[]`) or an array without null. */
  predicate Mappable(o: Option<Value>) {
    !Present(o) || (o.value.Arr? && NoNull(o.value.items))
  }

  /**
   * `out` is the collection field `o` as the indexer rebuilds it: empty when `o` is
   * falsy, otherwise one corrected record per input element, in order.
   */
  ghost predicate CollectionCorrected(kind: Kind, o: Option<Value>, out: seq<Value>, now: string) {
    && (!Present(o) ==> out == [])
    && (Present(o) ==> o.value.Arr? && |out| == |o.value.items|
                       && forall i :: 0 <= i < |out| ==> Corrected(kind, o.value.items[i], out[i], now))
  }

  /** `(bundle.x || []).map(...)`: anything truthy that is not an array has no `map` and throws. */
  function FixCollection(kind: Kind, o: Option<Value>, now: string, ids: IdSource, k: nat): (r: Option<Drawn<seq<Value>>>)
    ensures r.Some? <==> Mappable(o)
    ensures r.Some? ==> CollectionCorrected(kind, o, r.value.value, now)
    ensures r.Some? && !Present(o) ==> r.value.next == k
  {
    if !Present(o) then Some(Drawn([], k))
    else if !o.value.Arr? then None
    else FixList(kind, o.value.items, now, ids, k)
  }

  function Min(a: nat, b: nat): nat { if a <= b then a else b }

  /**
   * `(bundle.logs || []).slice(0, 1000)`: arrays and strings have `slice`, anything else
   * truthy throws. A string is cut at 1000 UTF-16 code units.
   */
  function CapLogs(o: Option<Value>): (r: Option<Value>)
    ensures r.Some? <==> !Present(o) || o.value.Arr? || o.value.Str?
    ensures r.Some? && !Present(o) ==> r.value == Arr([])
    ensures r.Some? && Present(o) && o.value.Arr? ==>
      r.value.Arr? && r.value.items == o.value.items[..Min(|o.value.items|, LOG_CAP)]
    ensures r.Some? && Present(o) && o.value.Str? ==>
      && r.value.Str? && r.value.s != []
      && |r.value.s| <= |o.value.s| && r.value.s == o.value.s[..|r.value.s|]
      && Text.Utf16Length(r.value.s) <= LOG_CAP
      && (|r.value.s| < |o.value.s| ==> Text.Utf16Length(r.value.s) + Text.Units(o.value.s[|r.value.s|]) > LOG_CAP)
  {
    if !Present(o) then Some(Arr([]))
    else match o.value
      case Arr(items) => Some(Arr(items[..Min(|items|, LOG_CAP)]))
      case Str(s) =>
        var cut := Text.Utf16Prefix(s, LOG_CAP);
        assert cut != [] by {
          assert s[..1] == [s[0]] && Text.Utf16Length([s[0]]) <= 2;
        }
        Some(Str(cut))
      case _ => None
  }

  /** Defaulting policy of a present institution. */
  const InstitutionDefaults: map<string, Value> := map[
    "city" := Str(UNKNOWN_CITY), "systemMode" := Str(Types.SERVER), "cnpj" := Str(PLACEHOLDER_CNPJ)]

  /**
   * The institution block: a truthy one is kept with every field it has, only a falsy
   * city, mode or CNPJ being replaced; otherwise the placeholder institution.
   */
  function FixInstitution(o: Option<Value>): (inst: Value)
    ensures !Present(o) ==> inst == PlaceholderInstitution
    ensures Present(o) ==> CorrectedBy(Spread(o.value), inst, InstitutionDefaults, {})
    ensures SettledBy(inst, InstitutionDefaults, {})
    ensures Present(Field(inst.fields, "city")) && Present(Field(inst.fields, "cnpj"))
    ensures Present(Field(inst.fields, "systemMode"))
  {
    if Present(o) then
      FillCorrectedNoDraws(Spread(o.value), InstitutionDefaults);
      Obj(Fill(Spread(o.value), InstitutionDefaults))
    else
      PlaceholderInstitution
  }

  /** The keys of every serialized bundle: no `config`, whatever the input carried. */
  const BundleKeys: set<string> :=
    {"version", "timestamp", "institution", "agents", "residents", "logs", "territories"}

  /** The complete bundle the indexer builds. */
  datatype Bundle = Bundle(
    version: string,
    timestamp: string,
    institution: Value,
    agents: seq<Value>,
    residents: seq<Value>,
    logs: Value,
    territories: seq<Value>)

  /** The bundle as `JSON.stringify` writes it and `JSON.parse` reads it back. */
  function Serialize(b: Bundle): (v: Value)
    ensures v.Obj? && v.fields.Keys == BundleKeys
  {
    Obj(map[
      "version" := Str(b.version),
      "timestamp" := Str(b.timestamp),
      "institution" := b.institution,
      "agents" := Arr(b.agents),
      "residents" := Arr(b.residents),
      "logs" := b.logs,
      "territories" := Arr(b.territories)])
  }

  /** The inputs the indexer accepts without throwing. */
  predicate Indexable(bundle: Value) {
    var b := Spread(bundle);
    && !bundle.Null?
    && Mappable(Field(b, "agents"))
    && Mappable(Field(b, "residents"))
    && Mappable(Field(b, "territories"))
    && CapLogs(Field(b, "logs")).Some?
  }

  /**
   * services/dataService.ts:8-51, `runDataIndexer`. `now` is the clock reading
   * (`new Date().toISOString()`); the result carries the number of ids drawn.
   */
  function Index(bundle: Value, now: string, ids: IdSource): (r: Option<Drawn<Bundle>>)
    ensures r.Some? <==> Indexable(bundle)
    ensures r.Some? ==> r.value.value.version == SCHEMA_VERSION && r.value.value.timestamp == now
    ensures r.Some? ==> r.value.value.institution == FixInstitution(Field(Spread(bundle), "institution"))
    ensures r.Some? ==> CollectionCorrected(AgentRow, Field(Spread(bundle), "agents"), r.value.value.agents, now)
    ensures r.Some? ==> CollectionCorrected(ResidentRow, Field(Spread(bundle), "residents"), r.value.value.residents, now)
    ensures r.Some? ==> CollectionCorrected(TerritoryRow, Field(Spread(bundle), "territories"), r.value.value.territories, now)
    ensures r.Some? ==> Some(r.value.value.logs) == CapLogs(Field(Spread(bundle), "logs"))
  {
    if bundle.Null? then None
    else
      var b := Spread(bundle);
      var agents :- FixCollection(AgentRow, Field(b, "agents"), now, ids, 0);
      var residents :- FixCollection(ResidentRow, Field(b, "residents"), now, ids, agents.next);
      var logs :- CapLogs(Field(b, "logs"));
      var territories :- FixCollection(TerritoryRow, Field(b, "territories"), now, ids, residents.next);
      Some(Drawn(Bundle(
        SCHEMA_VERSION,
        now,
        FixInstitution(Field(b, "institution")),
        agents.value,
        residents.value,
        logs,
        territories.value), territories.next))
  }

  /** The serialized output stamps version and clock and never carries a `config` block. */
  lemma IndexDropsConfig(bundle: Value, now: string, ids: IdSource)
    requires Indexable(bundle)
    ensures var out := Serialize(Index(bundle, now, ids).value.value);
      && "config" !in out.fields
      && out.fields["version"] == Str(SCHEMA_VERSION)
      && out.fields["timestamp"] == Str(now)
  {
    var b := Index(bundle, now, ids).value.value;
    SerializedHeader(b);
  }

  /** The serialized bundle carries its version and timestamp, and no `config` key. */
  lemma SerializedHeader(b: Bundle)
    ensures var f := Serialize(b).fields;
      && "config" !in f
      && f["version"] == Str(b.version)
      && f["timestamp"] == Str(b.timestamp)
  {
    assert "config" !in BundleKeys;
  }

  /** Indexing an empty object: the placeholder institution and empty collections, with no draws. */
  lemma IndexEmptyObject(now: string, ids: IdSource)
    ensures Index(Obj(map[]), now, ids) ==
      Some(Drawn(Bundle(SCHEMA_VERSION, now, PlaceholderInstitution, [], [], Arr([]), []), 0))
  {
  }

  /** A settled resident has every field the registry relies on. */
  lemma SettledResidentComplete(p: Value, now: string)
    requires Settled(ResidentRow, p, now)
    ensures p.Obj?
    ensures Present(Field(p.fields, "id")) && Present(Field(p.fields, "name"))
    ensures Present(Field(p.fields, "cpf")) && Present(Field(p.fields, "neighborhood"))
    ensures Present(Field(p.fields, "relationship")) && Present(Field(p.fields, "education"))
    ensures "rg" in p.fields && "birthDate" in p.fields
    ensures Today(now) != "" ==> Present(Field(p.fields, "birthDate"))
  {
    var ds := Defaults(ResidentRow, now);
    assert "name" in ds && "cpf" in ds && "neighborhood" in ds && "relationship" in ds;
    assert "education" in ds && "rg" in ds && "birthDate" in ds;
  }

  /** Every indexed resident carries a non-empty id, name, cpf, neighborhood, role and education record. */
  lemma IndexedResidentsComplete(bundle: Value, now: string, ids: IdSource)
    requires Indexable(bundle)
    ensures var rs := Index(bundle, now, ids).value.value.residents;
      forall i :: 0 <= i < |rs| ==> ResidentComplete(rs[i], now)
  {
    var out := Index(bundle, now, ids).value.value;
    var o := Field(Spread(bundle), "residents");
    assert CollectionCorrected(ResidentRow, o, out.residents, now);
    forall i | 0 <= i < |out.residents| ensures ResidentComplete(out.residents[i], now) {
      assert Corrected(ResidentRow, o.value.items[i], out.residents[i], now);
      SettledResidentComplete(out.residents[i], now);
    }
  }

  /** What every indexed resident carries. */
  predicate ResidentComplete(p: Value, now: string) {
    && p.Obj?
    && Present(Field(p.fields, "id")) && Present(Field(p.fields, "name"))
    && Present(Field(p.fields, "cpf")) && Present(Field(p.fields, "neighborhood"))
    && Present(Field(p.fields, "relationship")) && Present(Field(p.fields, "education"))
    && "rg" in p.fields && "birthDate" in p.fields
    && (Today(now) != "" ==> Present(Field(p.fields, "birthDate")))
  }

  lemma {:induction false} FixListSettled(kind: Kind, vs: seq<Value>, now: string, ids: IdSource, k: nat)
    requires forall i :: 0 <= i < |vs| ==> Settled(kind, vs[i], now)
    ensures FixList(kind, vs, now, ids, k) == Some(Drawn(vs, k))
  {
    if vs != [] {
      Seqs.HeadTail(vs);
      FixSettled(kind, vs[0], now, ids, k);
      var h := FixItem(kind, vs[0], now, ids, k).value;
      assert h == Drawn(vs[0], k);
      assert forall i :: 0 <= i < |vs[1..]| ==> vs[1..][i] == vs[i + 1];
      FixListSettled(kind, vs[1..], now, ids, k);
    }
  }

  lemma CorrectedIsSettled(kind: Kind, before: Value, after: Value, now: string)
    requires Corrected(kind, before, after, now)
    ensures Settled(kind, after, now)
  {
  }

  /** A rebuilt collection, read back as an array, is rebuilt into itself with no draws. */
  lemma CollectionSettles(kind: Kind, o: Option<Value>, out: seq<Value>, now: string, ids: IdSource)
    requires CollectionCorrected(kind, o, out, now)
    ensures FixCollection(kind, Some(Arr(out)), now, ids, 0) == Some(Drawn(out, 0))
  {
    if Present(o) {
      var items := o.value.items;
      forall i | 0 <= i < |out|
        ensures Settled(kind, out[i], now)
      {
        CorrectedIsSettled(kind, items[i], out[i], now);
      }
    }
    FixListSettled(kind, out, now, ids, 0);
    assert Present(Some(Arr(out)));
  }

  /** Log text made only of surrogate pairs keeps at most 500 characters: 1000 code units. */
  lemma CapLogsPairs(s: string)
    requires s != [] && forall i :: 0 <= i < |s| ==> s[i] as int > 0xFFFF
    ensures |CapLogs(Some(Str(s))).value.s| == if |s| <= LOG_CAP / 2 then |s| else LOG_CAP / 2
  {
    Text.Utf16PrefixPairs(s, LOG_CAP);
  }

  lemma CapLogsIdempotent(o: Option<Value>)
    requires CapLogs(o).Some?
    ensures CapLogs(Some(CapLogs(o).value)) == CapLogs(o)
  {
    var l := CapLogs(o).value;
    if Present(o) && o.value.Str? {
      assert Text.Utf16Prefix(l.s, LOG_CAP) == l.s;
    } else if Present(o) && o.value.Arr? {
      assert l.items[..Min(|l.items|, LOG_CAP)] == l.items;
    }
  }

  lemma FixInstitutionIdempotent(o: Option<Value>)
    ensures FixInstitution(Some(FixInstitution(o))) == FixInstitution(o)
  {
    FillSettled(FixInstitution(o).fields, InstitutionDefaults, {});
  }

  /** Reading the fields of a serialized bundle gives back its parts. */
  lemma SerializedFields(out: Bundle)
    ensures var f := Serialize(out).fields;
      && Field(f, "agents") == Some(Arr(out.agents))
      && Field(f, "residents") == Some(Arr(out.residents))
      && Field(f, "territories") == Some(Arr(out.territories))
      && Field(f, "logs") == Some(out.logs)
      && Field(f, "institution") == Some(out.institution)
  {
  }

  /** The indexer's result when every collection is already settled and no id is drawn. */
  lemma IndexWithoutDraws(bundle: Value, now: string, ids: IdSource,
                          agents: seq<Value>, residents: seq<Value>, territories: seq<Value>, logs: Value)
    requires !bundle.Null?
    requires FixCollection(AgentRow, Field(Spread(bundle), "agents"), now, ids, 0) == Some(Drawn(agents, 0))
    requires FixCollection(ResidentRow, Field(Spread(bundle), "residents"), now, ids, 0) == Some(Drawn(residents, 0))
    requires FixCollection(TerritoryRow, Field(Spread(bundle), "territories"), now, ids, 0) == Some(Drawn(territories, 0))
    requires CapLogs(Field(Spread(bundle), "logs")) == Some(logs)
    ensures Index(bundle, now, ids) == Some(Drawn(Bundle(SCHEMA_VERSION, now,
      FixInstitution(Field(Spread(bundle), "institution")), agents, residents, logs, territories), 0))
  {
  }

  /**
   * Idempotence: with the same clock, indexing the serialized output of the indexer
   * returns the same bundle and draws no fresh ids, whatever the id source.
   */
  lemma IndexIdempotent(bundle: Value, now: string, ids: IdSource, ids': IdSource)
    requires Indexable(bundle)
    ensures var out := Index(bundle, now, ids).value.value;
      Index(Serialize(out), now, ids') == Some(Drawn(out, 0))
  {
    var b := Spread(bundle);
    var out := Index(bundle, now, ids).value.value;
    var again := Serialize(out);
    SerializedFields(out);
    CollectionSettles(AgentRow, Field(b, "agents"), out.agents, now, ids');
    CollectionSettles(ResidentRow, Field(b, "residents"), out.residents, now, ids');
    CollectionSettles(TerritoryRow, Field(b, "territories"), out.territories, now, ids');
    CapLogsIdempotent(Field(b, "logs"));
    FixInstitutionIdempotent(Field(b, "institution"));
    IndexWithoutDraws(again, now, ids', out.agents, out.residents, out.territories, out.logs);
  }

  /**
   * services/dataService.ts:64-79, `importBackup` after the file has been read: a parse
   * failure (`parsed` is None) or any failure of the indexer becomes the one
   * invalid-backup error; otherwise the indexed bundle is the result.
   */
  function ImportBackup(parsed: Option<Value>, now: string, ids: IdSource): (r: Result<Bundle, string>)
    ensures r.Success? <==> parsed.Some? && Indexable(parsed.value)
    ensures r.Failure? ==> r.error == INVALID_BACKUP
    ensures r.Success? ==> r.value == Index(parsed.value, now, ids).value.value
  {
    if parsed.None? then Failure(INVALID_BACKUP)
    else match Index(parsed.value, now, ids)
      case None => Failure(INVALID_BACKUP)
      case Some(d) => Success(d.value)
  }
}
