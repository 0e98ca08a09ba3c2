/**
 * The report screen's computations: a resident's age, the conjunctive filter, the
 * grouping of the filtered residents into household units by address, the ordering
 * of those units, and the summary counters.
 */
module Reports {
  import opened Wrappers
  import opened Json
  import Text
  import Types
  import Seqs

  /** A calendar date as `getFullYear`, `getMonth` and `getDate` read it. */
  datatype Date = Date(year: int, month: int, day: int)

  /**
   * What `new Date(s)` reads from a non-empty birth date string; None for an Invalid
   * Date, whose getters all give NaN.
   */
  type DateParser = string -> Option<Date>

  /**
   * The fields of a resident the report reads. Text fields hold "" where the record
   * has no string; `gender` keeps the difference, because it is compared with `===`.
   */
  datatype Person = Person(
    name: string, cpf: string, rg: string,
    neighborhood: string, street: string, number: string, block: string, lot: string,
    schoolName: string, isStudying: bool, gender: Option<string>,
    relationship: string, birthDate: string)

  /** A string field of the record, "" when it is missing or not a string. */
  function TextOf(o: Option<Value>): string
  {
    if o.Some? && o.value.Str? then o.value.s else ""
  }

  /** The report's view of a stored resident record. */
  function View(r: Record): Person
  {
    var education := Field(r, "education");
    Person(
      TextOf(Field(r, "name")), TextOf(Field(r, "cpf")), TextOf(Field(r, "rg")),
      TextOf(Field(r, "neighborhood")), TextOf(Field(r, "street")), TextOf(Field(r, "number")),
      TextOf(Field(r, "block")), TextOf(Field(r, "lot")),
      TextOf(Chain(education, "schoolName")), Present(Chain(education, "isStudying")),
      if Field(r, "gender").Some? && r["gender"].Str? then Some(r["gender"].s) else None,
      TextOf(Field(r, "relationship")), TextOf(Field(r, "birthDate")))
  }

  // ---------------------------------------------------------------------------
  // Age

  /** `a` falls on or before `b` in calendar order. */
  predicate OnOrBefore(a: Date, b: Date) {
    || a.year < b.year
    || (a.year == b.year && (a.month < b.month || (a.month == b.month && a.day <= b.day)))
  }

  /** The `n`-th anniversary of `birth`. */
  function Anniversary(birth: Date, n: int): Date {
    Date(birth.year + n, birth.month, birth.day)
  }

  /** By `today` the `n`-th anniversary of `birth` has been reached and the next one has not. */
  predicate Completed(birth: Date, today: Date, n: int) {
    OnOrBefore(Anniversary(birth, n), today) && !OnOrBefore(Anniversary(birth, n + 1), today)
  }

  /**
   * components/Reports.tsx:43-51, `getAge`: 0 for an empty date; otherwise the difference of
   * years, one less while this year's birthday is still ahead. None stands for NaN, the
   * age of a date `new Date` cannot read.
   */
  function Age(birthDate: string, today: Date, parse: DateParser): (age: Option<int>)
    ensures birthDate == "" ==> age == Some(0)
    ensures birthDate != "" ==> (age.Some? <==> parse(birthDate).Some?)
    ensures birthDate != "" && age.Some? ==> Completed(parse(birthDate).value, today, age.value)
  {
    if birthDate == "" then Some(0)
    else if parse(birthDate).None? then None
    else
      var birth := parse(birthDate).value;
      var age := today.year - birth.year;
      var m := today.month - birth.month;
      Some(if m < 0 || (m == 0 && today.day < birth.day) then age - 1 else age)
  }

  /** The number of anniversaries reached is unique, so `Completed` pins the age down. */
  lemma CompletedUnique(birth: Date, today: Date, n: int, n': int)
    requires Completed(birth, today, n) && Completed(birth, today, n')
    ensures n == n'
  {
  }

  /** Ages never decrease as time goes on. */
  lemma AgeMonotone(birthDate: string, today: Date, later: Date, parse: DateParser)
    requires OnOrBefore(today, later)
    ensures Age(birthDate, today, parse).Some? <==> Age(birthDate, later, parse).Some?
    ensures Age(birthDate, today, parse).Some? ==> Age(birthDate, today, parse).value <= Age(birthDate, later, parse).value
  {
  }

  // ---------------------------------------------------------------------------
  // Filtering

  /** The report's filter form. `civilStatus` is kept but never applied. */
  datatype Filters = Filters(
    globalSearch: string, rg: string, neighborhood: string, street: string, school: string,
    isStudying: string, gender: string, civilStatus: string, minAge: string, maxAge: string)

  /** components/Reports.tsx:11-22 */
  const InitialFilters := Filters("", "", "", "", "", "all", "all", "all", "", "")

  /** `!q || s?.toLowerCase().includes(q.toLowerCase())`: a case-insensitive substring test. */
  predicate TextMatch(s: string, q: string) {
    q == "" || Text.Contains(Text.LowerStr(s), Text.LowerStr(q))
  }

  /** The global search: the name ignoring case, or the cpf exactly as typed. */
  predicate MatchesGlobal(p: Person, q: string) {
    || q == ""
    || Text.Contains(Text.LowerStr(p.name), Text.LowerStr(q))
    || (p.cpf != "" && Text.Contains(p.cpf, q))
  }

  predicate MatchesStudying(p: Person, choice: string) {
    choice == "all" || (choice == "yes" && p.isStudying) || (choice == "no" && !p.isStudying)
  }

  predicate MatchesGender(p: Person, choice: string) {
    choice == "all" || p.gender == Some(choice)
  }

  /** `!bound || age >= parseInt(bound)`; a comparison with NaN on either side is false. */
  predicate AtLeast(age: Option<int>, bound: string) {
    bound == "" || (age.Some? && Text.ParseInt(bound).Some? && age.value >= Text.ParseInt(bound).value)
  }

  /** `!bound || age <= parseInt(bound)` */
  predicate AtMost(age: Option<int>, bound: string) {
    bound == "" || (age.Some? && Text.ParseInt(bound).Some? && age.value <= Text.ParseInt(bound).value)
  }

  /** components/Reports.tsx:55-72: a resident passes when all eight tests hold. */
  predicate Matches(p: Person, f: Filters, today: Date, parse: DateParser) {
    var age := Age(p.birthDate, today, parse);
    && MatchesGlobal(p, f.globalSearch)
    && TextMatch(p.rg, f.rg)
    && TextMatch(p.neighborhood, f.neighborhood)
    && TextMatch(p.street, f.street)
    && TextMatch(p.schoolName, f.school)
    && MatchesStudying(p, f.isStudying)
    && MatchesGender(p, f.gender)
    && AtLeast(age, f.minAge) && AtMost(age, f.maxAge)
  }

  /** `xs.filter(keep)` */
  function Select<T(!new)>(xs: seq<T>, keep: T -> bool): (r: seq<T>)
    ensures |r| <= |xs|
    ensures forall x :: x in r <==> x in xs && keep(x)
  {
    if xs == [] then []
    else
      var rest := Select(xs[1..], keep);
      assert forall x :: x in xs <==> x == xs[0] || x in xs[1..];
      if keep(xs[0]) then [xs[0]] + rest else rest
  }

  /** Every position moved one place to the right. */
  function Shift(idx: seq<nat>): (r: seq<nat>)
    ensures |r| == |idx|
    ensures forall i :: 0 <= i < |idx| ==> r[i] == idx[i] + 1
  {
    seq(|idx|, i requires 0 <= i < |idx| => idx[i] + 1)
  }

  /** The positions of `xs` whose element passes `keep`. */
  function Positions<T>(xs: seq<T>, keep: T -> bool): seq<nat>
  {
    if xs == [] then []
    else (if keep(xs[0]) then [0] else []) + Shift(Positions(xs[1..], keep))
  }

  /** `r` lists the elements of `xs` at the positions `idx`, in that order. */
  ghost predicate Picks<T>(r: seq<T>, idx: seq<nat>, xs: seq<T>) {
    |idx| == |r| && forall i :: 0 <= i < |idx| ==> idx[i] < |xs| && r[i] == xs[idx[i]]
  }

  /** Picking from the tail is picking from the whole at positions one further right. */
  lemma PicksShift<T>(r: seq<T>, idx: seq<nat>, xs: seq<T>)
    requires xs != [] && Picks(r, idx, xs[1..])
    ensures Picks(r, Shift(idx), xs)
  {
    forall i | 0 <= i < |idx| ensures xs[1..][idx[i]] == xs[idx[i] + 1] {}
  }

  /** Picking the head first and then from the tail. */
  lemma PicksHead<T>(r: seq<T>, idx: seq<nat>, xs: seq<T>)
    requires xs != [] && Picks(r, idx, xs)
    ensures Picks([xs[0]] + r, [0] + idx, xs)
  {
  }

  /** `filter` returns the elements at `Positions`, in that order. */
  lemma {:induction false} SelectPicksPositions<T(!new)>(xs: seq<T>, keep: T -> bool)
    ensures Picks(Select(xs, keep), Positions(xs, keep), xs)
  {
    if xs != [] {
      var rest := Select(xs[1..], keep);
      var tail := Positions(xs[1..], keep);
      SelectPicksPositions(xs[1..], keep);
      PicksShift(rest, tail, xs);
      if keep(xs[0]) {
        PicksHead(rest, Shift(tail), xs);
      } else {
        Seqs.ConcatEmpty(Shift(tail));
      }
    }
  }

  /** `Positions` increase strictly. */
  lemma {:induction false} PositionsIncrease<T>(xs: seq<T>, keep: T -> bool)
    ensures forall i, j :: 0 <= i < j < |Positions(xs, keep)| ==> Positions(xs, keep)[i] < Positions(xs, keep)[j]
  {
    if xs != [] {
      PositionsIncrease(xs[1..], keep);
      var idx := Positions(xs, keep);
      var tail := Positions(xs[1..], keep);
      var shifted := Shift(tail);
      var offset := if keep(xs[0]) then 1 else 0;
      assert idx == (if keep(xs[0]) then [0] else []) + shifted;
      forall i, j | 0 <= i < j < |idx| ensures idx[i] < idx[j] {
        assert idx[j] == tail[j - offset] + 1;
        if i >= offset {
          assert idx[i] == tail[i - offset] + 1;
          assert tail[i - offset] < tail[j - offset];
        } else {
          assert idx[i] == 0;
        }
      }
    }
  }

  /** Every position whose element passes is among `Positions`. */
  lemma {:induction false} PositionsComplete<T>(xs: seq<T>, keep: T -> bool, j: nat)
    requires j < |xs| && keep(xs[j])
    ensures j in Positions(xs, keep)
  {
    var idx := Positions(xs, keep);
    if j == 0 {
      assert idx[0] == 0;
    } else {
      assert xs[1..][j - 1] == xs[j];
      PositionsComplete(xs[1..], keep, j - 1);
      var tail := Positions(xs[1..], keep);
      var i :| 0 <= i < |tail| && tail[i] == j - 1;
      var offset := if keep(xs[0]) then 1 else 0;
      assert idx[i + offset] == j;
    }
  }

  /** components/Reports.tsx:53-74, `filteredData` */
  function Filtered(rs: seq<Person>, f: Filters, today: Date, parse: DateParser): (r: seq<Person>)
    ensures |r| <= |rs|
    ensures forall p :: p in r <==> p in rs && Matches(p, f, today, parse)
  {
    Select(rs, p => Matches(p, f, today, parse))
  }

  /**
   * The filtered list is an order-preserving subsequence: it picks the residents at
   * increasing positions `idx`, and every position it skips holds a resident that fails.
   */
  lemma FilteredInOrder(rs: seq<Person>, f: Filters, today: Date, parse: DateParser)
    returns (idx: seq<nat>)
    ensures var r := Filtered(rs, f, today, parse);
      && |idx| == |r|
      && (forall i :: 0 <= i < |idx| ==> idx[i] < |rs| && r[i] == rs[idx[i]])
      && (forall i, j :: 0 <= i < j < |idx| ==> idx[i] < idx[j])
      && (forall j :: 0 <= j < |rs| && Matches(rs[j], f, today, parse) ==> j in idx)
  {
    var keep := p => Matches(p, f, today, parse);
    idx := Positions(rs, keep);
    SelectPicksPositions(rs, keep);
    PositionsIncrease(rs, keep);
    forall j | 0 <= j < |rs| && Matches(rs[j], f, today, parse) ensures j in idx {
      PositionsComplete(rs, keep, j);
    }
  }

  /** With the initial filters every resident passes, so the report starts with everyone. */
  lemma InitialFiltersKeepAll(rs: seq<Person>, today: Date, parse: DateParser)
    ensures Filtered(rs, InitialFilters, today, parse) == rs
  {
    var keep := p => Matches(p, InitialFilters, today, parse);
    forall p ensures keep(p) {
      assert Matches(p, InitialFilters, today, parse);
    }
    SelectAll(rs, keep);
  }

  /** Filtering with a test every element passes returns the list. */
  lemma {:induction false} SelectAll<T(!new)>(xs: seq<T>, keep: T -> bool)
    requires forall x :: keep(x)
    ensures Select(xs, keep) == xs
  {
    if xs != [] {
      SelectAll(xs[1..], keep);
      Seqs.HeadTail(xs);
    }
  }

  /** Letter case in the rg, neighbourhood, street and school filters makes no difference. */
  lemma QueryCaseIgnored(p: Person, f: Filters, today: Date, parse: DateParser)
    ensures var lowered := f.(
        rg := Text.LowerStr(f.rg), neighborhood := Text.LowerStr(f.neighborhood),
        street := Text.LowerStr(f.street), school := Text.LowerStr(f.school));
      Matches(p, f, today, parse) <==> Matches(p, lowered, today, parse)
  {
    Text.LowerStrIdempotent(f.rg);
    Text.LowerStrIdempotent(f.neighborhood);
    Text.LowerStrIdempotent(f.street);
    Text.LowerStrIdempotent(f.school);
  }

  /** Age bounds are inclusive: with both bounds typed as `lo` and `hi`, exactly the ages in [lo, hi] pass. */
  lemma AgeBoundsInclusive(age: Option<int>, lo: int, hi: int)
    ensures AtLeast(age, Text.IntToString(lo)) && AtMost(age, Text.IntToString(hi))
      <==> age.Some? && lo <= age.value <= hi
  {
    Text.ParseIntRoundTrip(lo);
    Text.ParseIntRoundTrip(hi);
  }

  /** A birth date `new Date` cannot read gives a NaN age, which fails any typed age bound. */
  lemma UnreadableBirthDateDropped(p: Person, f: Filters, today: Date, parse: DateParser)
    requires p.birthDate != "" && parse(p.birthDate).None?
    ensures Matches(p, f, today, parse) ==> f.minAge == "" && f.maxAge == ""
  {
  }

  // ---------------------------------------------------------------------------
  // Household units

  /** `x || 'SN'` */
  function OrSN(s: string): string {
    if s == "" then "SN" else s
  }

  /** components/Reports.tsx:80, the lower-cased `neighborhood-street-block-lot` key. */
  function Key(p: Person): string {
    Text.LowerStr(OrSN(p.neighborhood) + "-" + OrSN(p.street) + "-" + OrSN(p.block) + "-" + OrSN(p.lot))
  }

  /** components/Reports.tsx:83, the printed address of a unit, taken from its first member. */
  function Address(p: Person): string {
    (if p.street == "" then "Logradouro não informado" else p.street) + ", "
      + (if p.number == "" then "S/N" else "Nº " + p.number)
      + " - Qd " + (if p.block == "" then "-" else p.block)
      + ", Lt " + (if p.lot == "" then "-" else p.lot)
      + " (" + (if p.neighborhood == "" then "Bairro N/D" else p.neighborhood) + ")"
  }

  /** A household unit: the key it is stored under, its address and its members. */
  datatype Unit = Unit(key: string, address: string, members: seq<Person>)

  function Size(u: Unit): nat {
    |u.members|
  }

  /**
   * How a resident is filed: its grouping key and the address a unit opened for it shows.
   * The report uses `Key` and `Address`; the grouping below holds for any pair.
   */
  datatype Filing = Filing(key: Person -> string, address: Person -> string)

  const ByAddress := Filing(Key, Address)

  /** The residents of `ps` filed under `k`, in order. */
  function WithKey(ps: seq<Person>, filing: Filing, k: string): seq<Person>
  {
    if ps == [] then []
    else WithKey(ps[..|ps| - 1], filing, k) + (if filing.key(ps[|ps| - 1]) == k then [ps[|ps| - 1]] else [])
  }

  /** The total membership of a list of units. */
  function TotalSize(us: seq<Unit>): nat
  {
    if us == [] then 0 else Size(us[0]) + TotalSize(us[1..])
  }

  /** `groups[key]`: the position of the unit stored under `key`. */
  function FindUnit(us: seq<Unit>, key: string): (r: Option<nat>)
    ensures r.Some? ==> r.value < |us| && us[r.value].key == key
    ensures r.None? ==> forall i :: 0 <= i < |us| ==> us[i].key != key
  {
    if us == [] then None
    else if us[|us| - 1].key == key then Some(|us| - 1)
    else FindUnit(us[..|us| - 1], key)
  }

  /** components/Reports.tsx:80-87, one resident: joins its unit, or opens a new one at the end. */
  function AddMember(us: seq<Unit>, p: Person, filing: Filing): seq<Unit>
  {
    var k := filing.key(p);
    match FindUnit(us, k)
    case Some(i) => us[i := us[i].(members := us[i].members + [p])]
    case None => us + [Unit(k, filing.address(p), [p])]
  }

  /** Units in the order their keys were first seen. */
  function Group(ps: seq<Person>, filing: Filing): seq<Unit>
  {
    if ps == [] then [] else AddMember(Group(ps[..|ps| - 1], filing), ps[|ps| - 1], filing)
  }

  /** components/Reports.tsx:77-88, the `groups` object read back with `Object.values`. */
  function GroupByAddress(ps: seq<Person>): seq<Unit>
  {
    Group(ps, ByAddress)
  }

  ghost predicate DistinctKeys(us: seq<Unit>) {
    forall i, j :: 0 <= i < j < |us| ==> us[i].key != us[j].key
  }

  /** Every unit is non-empty, holds exactly the residents with its key, and shows its first member's address. */
  ghost predicate UnitsOf(ps: seq<Person>, us: seq<Unit>, filing: Filing) {
    forall i :: 0 <= i < |us| ==>
      us[i].members == WithKey(ps, filing, us[i].key) && us[i].members != []
      && us[i].address == filing.address(us[i].members[0])
  }

  /** Some unit is filed under `k`. */
  ghost predicate HasUnit(us: seq<Unit>, k: string) {
    exists i :: 0 <= i < |us| && us[i].key == k
  }

  /** Every resident's key has a unit. */
  ghost predicate Covers(ps: seq<Person>, us: seq<Unit>, filing: Filing) {
    forall j :: 0 <= j < |ps| ==> HasUnit(us, filing.key(ps[j]))
  }

  /** The units partition `ps`. */
  ghost predicate Partition(ps: seq<Person>, us: seq<Unit>, filing: Filing) {
    DistinctKeys(us) && UnitsOf(ps, us, filing) && Covers(ps, us, filing) && TotalSize(us) == |ps|
  }

  lemma {:induction false} NoKeyNoMembers(ps: seq<Person>, filing: Filing, k: string)
    requires forall j :: 0 <= j < |ps| ==> filing.key(ps[j]) != k
    ensures WithKey(ps, filing, k) == []
  {
    if ps != [] {
      NoKeyNoMembers(ps[..|ps| - 1], filing, k);
    }
  }

  lemma {:induction false} TotalSizeAppend(us: seq<Unit>, u: Unit)
    ensures TotalSize(us + [u]) == TotalSize(us) + Size(u)
  {
    if us != [] {
      Seqs.TailOfConcat(us, [u]);
      TotalSizeAppend(us[1..], u);
    }
  }

  lemma {:induction false} TotalSizeUpdate(us: seq<Unit>, i: nat, u: Unit)
    requires i < |us|
    ensures TotalSize(us[i := u]) == TotalSize(us) - Size(us[i]) + Size(u)
  {
    if i > 0 {
      assert us[i := u][1..] == us[1..][i - 1 := u];
      TotalSizeUpdate(us[1..], i - 1, u);
    }
  }

  lemma WithKeyAppend(ps: seq<Person>, p: Person, filing: Filing, k: string)
    ensures WithKey(ps + [p], filing, k) == WithKey(ps, filing, k) + (if filing.key(p) == k then [p] else [])
  {
    Seqs.PrefixOfAppend(ps, p);
  }

  /** A resident whose key already has a unit joins it at the end. */
  lemma JoinUnitPartition(ps: seq<Person>, us: seq<Unit>, p: Person, filing: Filing, i: nat)
    requires Partition(ps, us, filing)
    requires i < |us| && us[i].key == filing.key(p)
    ensures Partition(ps + [p], us[i := us[i].(members := us[i].members + [p])], filing)
  {
    var ps' := ps + [p];
    var u := us[i].(members := us[i].members + [p]);
    var r := us[i := u];
    TotalSizeUpdate(us, i, u);
    forall j | 0 <= j < |r|
      ensures r[j].members == WithKey(ps', filing, r[j].key) && r[j].members != []
        && r[j].address == filing.address(r[j].members[0])
    {
      WithKeyAppend(ps, p, filing, r[j].key);
      if j == i {
        assert r[j].members[0] == us[i].members[0];
      } else {
        assert us[j].key != us[i].key;
      }
    }
    forall j | 0 <= j < |ps'| ensures HasUnit(r, filing.key(ps'[j])) {
      if j < |ps| {
        assert ps'[j] == ps[j];
        var l :| 0 <= l < |us| && us[l].key == filing.key(ps[j]);
        assert r[l].key == us[l].key;
      } else {
        assert r[i].key == filing.key(p);
      }
    }
  }

  /** A resident with a new key opens a unit of its own at the end. */
  lemma NewUnitPartition(ps: seq<Person>, us: seq<Unit>, p: Person, filing: Filing)
    requires Partition(ps, us, filing)
    requires forall i :: 0 <= i < |us| ==> us[i].key != filing.key(p)
    ensures Partition(ps + [p], us + [Unit(filing.key(p), filing.address(p), [p])], filing)
  {
    var u := Unit(filing.key(p), filing.address(p), [p]);
    TotalSizeAppend(us, u);
    AppendDistinct(us, u);
    NewUnitMembers(ps, us, p, filing);
    NewUnitCovers(ps, us, p, filing);
  }

  /** A unit with a key none of `us` has keeps the keys distinct when appended. */
  lemma AppendDistinct(us: seq<Unit>, u: Unit)
    requires DistinctKeys(us)
    requires forall i :: 0 <= i < |us| ==> us[i].key != u.key
    ensures DistinctKeys(us + [u])
  {
    var r := us + [u];
    forall i, j | 0 <= i < j < |r| ensures r[i].key != r[j].key {
      assert r[i] == us[i];
      if j < |us| { assert r[j] == us[j]; }
    }
  }

  /** The new unit holds just the new resident; the old units keep exactly their members. */
  lemma NewUnitMembers(ps: seq<Person>, us: seq<Unit>, p: Person, filing: Filing)
    requires UnitsOf(ps, us, filing) && Covers(ps, us, filing)
    requires forall i :: 0 <= i < |us| ==> us[i].key != filing.key(p)
    ensures UnitsOf(ps + [p], us + [Unit(filing.key(p), filing.address(p), [p])], filing)
  {
    var ps' := ps + [p];
    var r := us + [Unit(filing.key(p), filing.address(p), [p])];
    forall j | 0 <= j < |ps| ensures filing.key(ps[j]) != filing.key(p) {
      var l :| 0 <= l < |us| && us[l].key == filing.key(ps[j]);
    }
    NoKeyNoMembers(ps, filing, filing.key(p));
    forall j | 0 <= j < |r|
      ensures r[j].members == WithKey(ps', filing, r[j].key) && r[j].members != []
        && r[j].address == filing.address(r[j].members[0])
    {
      WithKeyAppend(ps, p, filing, r[j].key);
      if j < |us| {
        assert r[j] == us[j];
      }
    }
  }

  /** Every resident, the new one included, still has a unit. */
  lemma NewUnitCovers(ps: seq<Person>, us: seq<Unit>, p: Person, filing: Filing)
    requires Covers(ps, us, filing)
    ensures Covers(ps + [p], us + [Unit(filing.key(p), filing.address(p), [p])], filing)
  {
    var ps' := ps + [p];
    var r := us + [Unit(filing.key(p), filing.address(p), [p])];
    forall j | 0 <= j < |ps'| ensures HasUnit(r, filing.key(ps'[j])) {
      if j < |ps| {
        assert ps'[j] == ps[j];
        var l :| 0 <= l < |us| && us[l].key == filing.key(ps[j]);
        assert r[l] == us[l];
        assert r[l].key == filing.key(ps'[j]);
      } else {
        assert ps'[j] == p;
        assert r[|us|].key == filing.key(ps'[j]);
      }
    }
  }

  /** Adding one resident keeps the units a partition of the longer list. */
  lemma AddMemberPartition(ps: seq<Person>, us: seq<Unit>, p: Person, filing: Filing)
    requires Partition(ps, us, filing)
    ensures Partition(ps + [p], AddMember(us, p, filing), filing)
  {
    match FindUnit(us, filing.key(p))
    case Some(i) => JoinUnitPartition(ps, us, p, filing, i);
    case None => NewUnitPartition(ps, us, p, filing);
  }

  /**
   * Grouping is a partition: keys are distinct, each unit holds exactly the residents
   * with its key (so two residents share a unit iff their keys are equal), every
   * resident has a unit, and the unit sizes add up to the number of residents.
   */
  lemma {:induction false} GroupPartition(ps: seq<Person>, filing: Filing)
    ensures Partition(ps, Group(ps, filing), filing)
  {
    if ps != [] {
      var prefix := ps[..|ps| - 1];
      GroupPartition(prefix, filing);
      AddMemberPartition(prefix, Group(prefix, filing), ps[|ps| - 1], filing);
      Seqs.ButLast(ps);
    }
  }

  // ---------------------------------------------------------------------------
  // First-seen order of the units

  /** The position of the first resident of `ps` filed under `k`, or `|ps|` when none is. */
  function FirstSeen(ps: seq<Person>, filing: Filing, k: string): (n: nat)
    ensures n <= |ps|
    ensures n < |ps| ==> filing.key(ps[n]) == k
    ensures forall j :: 0 <= j < n ==> filing.key(ps[j]) != k
  {
    if ps == [] then 0
    else if filing.key(ps[0]) == k then 0
    else
      var n := 1 + FirstSeen(ps[1..], filing, k);
      assert forall j :: 1 <= j < n ==> ps[j] == ps[1..][j - 1];
      n
  }

  /** Appending a resident moves no earlier sighting; a new key is first seen at the end. */
  lemma FirstSeenAppend(ps: seq<Person>, p: Person, filing: Filing, k: string)
    ensures FirstSeen(ps + [p], filing, k) ==
      if FirstSeen(ps, filing, k) < |ps| then FirstSeen(ps, filing, k)
      else if filing.key(p) == k then |ps| else |ps| + 1
  {
    var qs := ps + [p];
    assert forall j :: 0 <= j < |ps| ==> qs[j] == ps[j];
    assert qs[|ps|] == p;
  }

  /** A key that no unit carries was never seen, when every resident has a unit. */
  lemma UnseenKey(ps: seq<Person>, us: seq<Unit>, filing: Filing, k: string)
    requires Covers(ps, us, filing)
    requires forall i :: 0 <= i < |us| ==> us[i].key != k
    ensures FirstSeen(ps, filing, k) == |ps|
  {
    var n := FirstSeen(ps, filing, k);
    assert n < |ps| ==> HasUnit(us, filing.key(ps[n]));
  }

  /** The units' keys were first seen in the units' order. */
  ghost predicate SeenInOrder(ps: seq<Person>, us: seq<Unit>, filing: Filing) {
    forall i, j :: 0 <= i < j < |us| ==> FirstSeen(ps, filing, us[i].key) < FirstSeen(ps, filing, us[j].key)
  }

  /** Every unit's key was seen in `ps`. */
  ghost predicate AllSeen(ps: seq<Person>, us: seq<Unit>, filing: Filing) {
    forall i :: 0 <= i < |us| ==> FirstSeen(ps, filing, us[i].key) < |ps|
  }

  /** A resident appended after every unit's first sighting moves none of them. */
  lemma {:induction false} AppendKeepsSeen(ps: seq<Person>, p: Person, us: seq<Unit>, filing: Filing)
    requires SeenInOrder(ps, us, filing) && AllSeen(ps, us, filing)
    ensures forall i :: 0 <= i < |us| ==> FirstSeen(ps + [p], filing, us[i].key) == FirstSeen(ps, filing, us[i].key)
    ensures SeenInOrder(ps + [p], us, filing) && AllSeen(ps + [p], us, filing)
  {
    forall i | 0 <= i < |us| ensures FirstSeen(ps + [p], filing, us[i].key) == FirstSeen(ps, filing, us[i].key) {
      FirstSeenAppend(ps, p, filing, us[i].key);
    }
  }

  /** First-seen order depends only on the units' keys. */
  lemma SameKeysSeen(ps: seq<Person>, us: seq<Unit>, vs: seq<Unit>, filing: Filing)
    requires |vs| == |us| && forall i :: 0 <= i < |us| ==> vs[i].key == us[i].key
    requires SeenInOrder(ps, us, filing) && AllSeen(ps, us, filing)
    ensures SeenInOrder(ps, vs, filing) && AllSeen(ps, vs, filing)
  {
  }

  /** A unit whose key was seen after every other unit's goes at the end. */
  lemma NewUnitSeen(ps: seq<Person>, us: seq<Unit>, u: Unit, filing: Filing)
    requires SeenInOrder(ps, us, filing)
    requires FirstSeen(ps, filing, u.key) < |ps|
    requires forall i :: 0 <= i < |us| ==> FirstSeen(ps, filing, us[i].key) < FirstSeen(ps, filing, u.key)
    ensures SeenInOrder(ps, us + [u], filing) && AllSeen(ps, us + [u], filing)
  {
    var r := us + [u];
    assert forall i :: 0 <= i < |us| ==> r[i] == us[i];
    assert r[|us|] == u;
  }

  /**
   * `Object.values(groups)` lists the units in the order their keys were first
   * inserted, which is the order their first residents appear in.
   */
  lemma {:induction false} GroupSeenInOrder(ps: seq<Person>, filing: Filing)
    ensures SeenInOrder(ps, Group(ps, filing), filing)
    ensures AllSeen(ps, Group(ps, filing), filing)
  {
    if ps != [] {
      var prefix := ps[..|ps| - 1];
      var p := ps[|ps| - 1];
      Seqs.ButLast(ps);
      var before := Group(prefix, filing);
      GroupSeenInOrder(prefix, filing);
      AppendKeepsSeen(prefix, p, before, filing);
      var k := filing.key(p);
      match FindUnit(before, k)
      case Some(i) =>
        SameKeysSeen(ps, before, before[i := before[i].(members := before[i].members + [p])], filing);
      case None =>
        GroupPartition(prefix, filing);
        UnseenKey(prefix, before, filing, k);
        FirstSeenAppend(prefix, p, filing, k);
        NewUnitSeen(ps, before, Unit(k, filing.address(p), [p]), filing);
    }
  }

  /** Every unit `OfSize` keeps is a unit of the list. */
  lemma {:induction false} OfSizeFrom(us: seq<Unit>, n: nat, x: Unit)
    requires x in OfSize(us, n)
    ensures x in us
  {
    if x != us[0] {
      OfSizeFrom(us[1..], n, x);
    }
  }

  /** Dropping the first unit keeps the order of the others. */
  lemma TailSeenInOrder(ps: seq<Person>, us: seq<Unit>, filing: Filing)
    requires us != [] && SeenInOrder(ps, us, filing)
    ensures SeenInOrder(ps, us[1..], filing)
  {
    var tail := us[1..];
    forall i, j | 0 <= i < j < |tail|
      ensures FirstSeen(ps, filing, tail[i].key) < FirstSeen(ps, filing, tail[j].key)
    {
      assert tail[i] == us[i + 1] && tail[j] == us[j + 1];
    }
  }

  /** A unit seen before every unit of an ordered list can go in front of it. */
  lemma ConsSeenInOrder(ps: seq<Person>, u: Unit, rest: seq<Unit>, filing: Filing)
    requires SeenInOrder(ps, rest, filing)
    requires forall x :: x in rest ==> FirstSeen(ps, filing, u.key) < FirstSeen(ps, filing, x.key)
    ensures SeenInOrder(ps, [u] + rest, filing)
  {
    var r := [u] + rest;
    forall i, j | 0 <= i < j < |r|
      ensures FirstSeen(ps, filing, r[i].key) < FirstSeen(ps, filing, r[j].key)
    {
      assert r[j] == rest[j - 1];
      if i == 0 {
        assert rest[j - 1] in rest;
      } else {
        assert r[i] == rest[i - 1];
      }
    }
  }

  /** The units `OfSize` keeps from the tail were all seen after the head. */
  lemma OfSizeAfterHead(ps: seq<Person>, us: seq<Unit>, filing: Filing, n: nat)
    requires us != [] && SeenInOrder(ps, us, filing)
    ensures forall x :: x in OfSize(us[1..], n) ==> FirstSeen(ps, filing, us[0].key) < FirstSeen(ps, filing, x.key)
  {
    var tail := us[1..];
    forall x | x in OfSize(tail, n) ensures FirstSeen(ps, filing, us[0].key) < FirstSeen(ps, filing, x.key) {
      OfSizeFrom(tail, n, x);
      var m :| 0 <= m < |tail| && tail[m] == x;
      assert us[m + 1] == x;
    }
  }

  /** Keeping the units of one size keeps their first-seen order. */
  lemma {:induction false} OfSizeSeenInOrder(ps: seq<Person>, us: seq<Unit>, filing: Filing, n: nat)
    requires SeenInOrder(ps, us, filing)
    ensures SeenInOrder(ps, OfSize(us, n), filing)
  {
    if us != [] {
      TailSeenInOrder(ps, us, filing);
      OfSizeSeenInOrder(ps, us[1..], filing, n);
      var rest := OfSize(us[1..], n);
      if Size(us[0]) == n {
        OfSizeAfterHead(ps, us, filing, n);
        ConsSeenInOrder(ps, us[0], rest, filing);
      } else {
        Seqs.ConcatEmpty(rest);
      }
    }
  }

  // ---------------------------------------------------------------------------
  // Ordering units by size

  ghost predicate NonIncreasing(us: seq<Unit>) {
    forall i, j :: 0 <= i < j < |us| ==> Size(us[i]) >= Size(us[j])
  }

  /** The units of size `n`, in order. */
  function OfSize(us: seq<Unit>, n: nat): seq<Unit>
  {
    if us == [] then [] else (if Size(us[0]) == n then [us[0]] else []) + OfSize(us[1..], n)
  }

  /** Places `u` after every unit at least as large: an insertion step of a stable sort. */
  function InsertBySize(us: seq<Unit>, u: Unit): (r: seq<Unit>)
    ensures |r| == |us| + 1
    ensures multiset(r) == multiset(us) + multiset{u}
    ensures TotalSize(r) == TotalSize(us) + Size(u)
  {
    if us == [] then [u]
    else if Size(us[0]) < Size(u) then [u] + us
    else
      var rest := InsertBySize(us[1..], u);
      assert us == [us[0]] + us[1..];
      [us[0]] + rest
  }

  /** components/Reports.tsx:90: `sort((a, b) => b.members.length - a.members.length)`, stable. */
  function SortBySize(us: seq<Unit>): (r: seq<Unit>)
    ensures |r| == |us|
    ensures multiset(r) == multiset(us)
  {
    if us == [] then []
    else
      Seqs.ButLast(us);
      InsertBySize(SortBySize(us[..|us| - 1]), us[|us| - 1])
  }

  lemma {:induction false} InsertNonIncreasing(us: seq<Unit>, u: Unit)
    requires NonIncreasing(us)
    ensures NonIncreasing(InsertBySize(us, u))
  {
    if us == [] || Size(us[0]) < Size(u) {
      assert InsertBySize(us, u) == [u] + us;
      forall i | 0 <= i < |us| ensures Size(u) >= Size(us[i]) {
        if i > 0 { assert Size(us[0]) >= Size(us[i]); }
      }
      ConsNonIncreasing(u, us);
    } else {
      var tail := us[1..];
      NonIncreasingTail(us);
      InsertNonIncreasing(tail, u);
      var rest := InsertBySize(tail, u);
      assert InsertBySize(us, u) == [us[0]] + rest;
      forall i | 0 <= i < |rest| ensures Size(us[0]) >= Size(rest[i]) {
        InsertedFrom(tail, u, i);
      }
      ConsNonIncreasing(us[0], rest);
    }
  }

  /** Every unit after an insertion is the inserted one or one of the list's. */
  lemma InsertedFrom(us: seq<Unit>, u: Unit, i: nat)
    requires i < |InsertBySize(us, u)|
    ensures InsertBySize(us, u)[i] == u || exists m :: 0 <= m < |us| && us[m] == InsertBySize(us, u)[i]
  {
    var r := InsertBySize(us, u);
    assert r[i] in multiset(r);
    if r[i] != u {
      assert r[i] in multiset(us);
    }
  }

  lemma NonIncreasingTail(us: seq<Unit>)
    requires us != [] && NonIncreasing(us)
    ensures NonIncreasing(us[1..])
  {
    var tail := us[1..];
    forall i, j | 0 <= i < j < |tail| ensures Size(tail[i]) >= Size(tail[j]) {
      assert tail[i] == us[i + 1] && tail[j] == us[j + 1];
    }
  }

  /** A unit at least as large as every unit of a non-increasing list can go in front of it. */
  lemma ConsNonIncreasing(x: Unit, rest: seq<Unit>)
    requires NonIncreasing(rest)
    requires forall i :: 0 <= i < |rest| ==> Size(x) >= Size(rest[i])
    ensures NonIncreasing([x] + rest)
  {
    var r := [x] + rest;
    forall i, j | 0 <= i < j < |r| ensures Size(r[i]) >= Size(r[j]) {
      assert r[j] == rest[j - 1];
      if i > 0 { assert r[i] == rest[i - 1]; }
    }
  }

  lemma {:induction false} OfSizeConcat(a: seq<Unit>, b: seq<Unit>, n: nat)
    ensures OfSize(a + b, n) == OfSize(a, n) + OfSize(b, n)
  {
    if a == [] {
      Seqs.ConcatEmpty(b);
      Seqs.ConcatEmpty(OfSize(b, n));
    } else {
      Seqs.TailOfConcat(a, b);
      OfSizeConcat(a[1..], b, n);
      var head := if Size(a[0]) == n then [a[0]] else [];
      assert OfSize(a + b, n) == head + OfSize(a[1..] + b, n);
      assert OfSize(a, n) == head + OfSize(a[1..], n);
      Seqs.ConcatAssoc(head, OfSize(a[1..], n), OfSize(b, n));
    }
  }

  lemma {:induction false} SmallerNotOfSize(us: seq<Unit>, n: nat)
    requires forall i :: 0 <= i < |us| ==> Size(us[i]) < n
    ensures OfSize(us, n) == []
  {
    if us != [] {
      SmallerNotOfSize(us[1..], n);
    }
  }

  /** Inserting `u` in front of smaller units: they cannot share its size. */
  lemma InsertFrontOfSize(us: seq<Unit>, u: Unit, n: nat)
    requires NonIncreasing(us)
    requires us == [] || Size(us[0]) < Size(u)
    ensures OfSize(InsertBySize(us, u), n) == OfSize(us, n) + (if Size(u) == n then [u] else [])
  {
    var r := [u] + us;
    assert InsertBySize(us, u) == r;
    assert r[0] == u && r[1..] == us;
    if Size(u) == n {
      forall i | 0 <= i < |us| ensures Size(us[i]) < n {
        if i > 0 { assert Size(us[0]) >= Size(us[i]); }
      }
      SmallerNotOfSize(us, n);
      assert OfSize(r, n) == [u] + [];
    } else {
      assert OfSize(r, n) == OfSize(us, n) + [];
    }
  }

  /** Inserting `u` appends it to its own size class and leaves every other class alone. */
  lemma {:induction false} InsertOfSize(us: seq<Unit>, u: Unit, n: nat)
    requires NonIncreasing(us)
    ensures OfSize(InsertBySize(us, u), n) == OfSize(us, n) + (if Size(u) == n then [u] else [])
  {
    if us == [] || Size(us[0]) < Size(u) {
      InsertFrontOfSize(us, u, n);
    } else {
      var extra := if Size(u) == n then [u] else [];
      var tail := us[1..];
      var rest := InsertBySize(tail, u);
      var r := [us[0]] + rest;
      assert InsertBySize(us, u) == r;
      assert r[0] == us[0] && r[1..] == rest;
      NonIncreasingTail(us);
      InsertOfSize(tail, u, n);
      var head := if Size(us[0]) == n then [us[0]] else [];
      assert OfSize(r, n) == head + (OfSize(tail, n) + extra);
      assert OfSize(us, n) == head + OfSize(tail, n);
      Seqs.ConcatAssoc(head, OfSize(tail, n), extra);
    }
  }

  /** `c * (n + 1)` unfolded once. */
  lemma MulSucc(c: int, n: nat)
    ensures c * (n + 1) == c + c * n
  {
  }

  /** Sizes never increase along the sorted units. */
  lemma {:induction false} SortNonIncreasing(us: seq<Unit>)
    ensures NonIncreasing(SortBySize(us))
  {
    if us != [] {
      SortNonIncreasing(us[..|us| - 1]);
      InsertNonIncreasing(SortBySize(us[..|us| - 1]), us[|us| - 1]);
    }
  }

  /** Sorting moves units around without changing the total membership. */
  lemma {:induction false} SortTotalSize(us: seq<Unit>)
    ensures TotalSize(SortBySize(us)) == TotalSize(us)
  {
    if us != [] {
      var prefix := us[..|us| - 1];
      var last := us[|us| - 1];
      SortTotalSize(prefix);
      Seqs.ButLast(us);
      TotalSizeAppend(prefix, last);
    }
  }

  /** Units of equal size keep their first-seen order: the sort is stable. */
  lemma {:induction false} SortStable(us: seq<Unit>, n: nat)
    ensures OfSize(SortBySize(us), n) == OfSize(us, n)
  {
    if us != [] {
      var prefix := us[..|us| - 1];
      var last := us[|us| - 1];
      Seqs.ButLast(us);
      var extra := if Size(last) == n then [last] else [];
      SortStable(prefix, n);
      SortNonIncreasing(prefix);
      InsertOfSize(SortBySize(prefix), last, n);
      assert OfSize([last], n) == extra by {
        assert [last][1..] == [];
      }
      OfSizeConcat(prefix, [last], n);
      calc {
        OfSize(SortBySize(us), n);
        OfSize(InsertBySize(SortBySize(prefix), last), n);
        OfSize(SortBySize(prefix), n) + extra;
        OfSize(prefix, n) + OfSize([last], n);
        OfSize(us, n);
      }
    }
  }

  /** Inserting a unit with a new key keeps the keys distinct. */
  lemma {:induction false} InsertDistinct(us: seq<Unit>, u: Unit)
    requires DistinctKeys(us)
    requires forall i :: 0 <= i < |us| ==> us[i].key != u.key
    ensures DistinctKeys(InsertBySize(us, u))
  {
    if us != [] && Size(us[0]) >= Size(u) {
      var tail := us[1..];
      InsertDistinct(tail, u);
      var rest := InsertBySize(tail, u);
      forall j | 0 <= j < |rest| ensures rest[j].key != us[0].key {
        InsertedFrom(tail, u, j);
      }
      var r := InsertBySize(us, u);
      assert r == [us[0]] + rest;
      forall i, j | 0 <= i < j < |r| ensures r[i].key != r[j].key {
        if i > 0 {
          assert r[i] == rest[i - 1] && r[j] == rest[j - 1];
        } else {
          assert r[j] == rest[j - 1];
        }
      }
    }
  }

  lemma {:induction false} SortDistinct(us: seq<Unit>)
    requires DistinctKeys(us)
    ensures DistinctKeys(SortBySize(us))
  {
    if us != [] {
      var prefix := us[..|us| - 1];
      var last := us[|us| - 1];
      SortDistinct(prefix);
      var sorted := SortBySize(prefix);
      forall i | 0 <= i < |sorted| ensures sorted[i].key != last.key {
        assert sorted[i] in multiset(prefix);
      }
      InsertDistinct(sorted, last);
    }
  }

  /** components/Reports.tsx:76-91, `familyUnits` */
  function FamilyUnits(filtered: seq<Person>): seq<Unit>
  {
    SortBySize(GroupByAddress(filtered))
  }

  /** The ordered units still partition the filtered residents by address key, largest first. */
  lemma FamilyUnitsPartition(filtered: seq<Person>)
    ensures Partition(filtered, FamilyUnits(filtered), ByAddress)
    ensures NonIncreasing(FamilyUnits(filtered))
  {
    var grouped := GroupByAddress(filtered);
    var units := FamilyUnits(filtered);
    GroupPartition(filtered, ByAddress);
    SortNonIncreasing(grouped);
    SortTotalSize(grouped);
    SortDistinct(grouped);
    forall i | 0 <= i < |units|
      ensures units[i].members == WithKey(filtered, ByAddress, units[i].key) && units[i].members != []
        && units[i].address == Address(units[i].members[0])
    {
      assert units[i] in multiset(grouped);
    }
    forall j | 0 <= j < |filtered| ensures HasUnit(units, Key(filtered[j])) {
      var l :| 0 <= l < |grouped| && grouped[l].key == Key(filtered[j]);
      assert grouped[l] in multiset(units);
    }
  }

  /**
   * Units of equal size keep their order from the grouping, which is the order
   * their addresses were first seen among the filtered residents.
   */
  lemma FamilyUnitsStable(filtered: seq<Person>, n: nat)
    ensures OfSize(FamilyUnits(filtered), n) == OfSize(GroupByAddress(filtered), n)
    ensures SeenInOrder(filtered, OfSize(FamilyUnits(filtered), n), ByAddress)
  {
    SortStable(GroupByAddress(filtered), n);
    GroupSeenInOrder(filtered, ByAddress);
    OfSizeSeenInOrder(filtered, GroupByAddress(filtered), ByAddress, n);
  }

  // ---------------------------------------------------------------------------
  // Counters

  /** The summary counters of the report. */
  datatype Stats = Stats(avgAge: Option<int>, students: nat, heads: nat, percentage: int)

  function Students(ps: seq<Person>): (n: nat)
    ensures n <= |ps|
  {
    if ps == [] then 0 else (if ps[0].isStudying then 1 else 0) + Students(ps[1..])
  }

  function Heads(ps: seq<Person>): (n: nat)
    ensures n <= |ps|
  {
    if ps == [] then 0 else (if ps[0].relationship == Types.HEAD then 1 else 0) + Heads(ps[1..])
  }

  /** The sum of the ages; NaN (None) as soon as one age is NaN. */
  function TotalAge(ps: seq<Person>, today: Date, parse: DateParser): (t: Option<int>)
  {
    if ps == [] then Some(0)
    else
      var a := Age(ps[0].birthDate, today, parse);
      var rest := TotalAge(ps[1..], today, parse);
      if a.Some? && rest.Some? then Some(a.value + rest.value) else None
  }

  /** `Math.round(n / d)`: the integer nearest to n/d, halves rounded up. */
  function RoundDiv(n: int, d: int): (r: int)
    requires d > 0
    ensures d * (2 * r - 1) <= 2 * n < d * (2 * r + 1)
  {
    var r := (2 * n + d) / (2 * d);
    assert 2 * d * r <= 2 * n + d < 2 * d * (r + 1);
    r
  }

  /** components/Reports.tsx:93-107, `stats`, over the filtered list and the number of residents. */
  function ComputeStats(filtered: seq<Person>, total: nat, today: Date, parse: DateParser): (s: Stats)
    ensures filtered == [] ==> s == Stats(Some(0), 0, 0, 0)
    ensures s.students <= |filtered| && s.heads <= |filtered|
    ensures filtered != [] ==>
      && s.students == Students(filtered) && s.heads == Heads(filtered)
      && (s.avgAge.Some? <==> TotalAge(filtered, today, parse).Some?)
      && (s.avgAge.Some? ==> s.avgAge.value == RoundDiv(TotalAge(filtered, today, parse).value, |filtered|))
      && s.percentage == RoundDiv(100 * |filtered|, if total == 0 then 1 else total)
  {
    var count := |filtered|;
    if count == 0 then Stats(Some(0), 0, 0, 0)
    else
      var sum := TotalAge(filtered, today, parse);
      Stats(
        if sum.Some? then Some(RoundDiv(sum.value, count)) else None,
        Students(filtered),
        Heads(filtered),
        RoundDiv(100 * count, if total == 0 then 1 else total))
  }

  /** The rounded share of `count` in `total` is a percentage when `count <= total`. */
  lemma PercentageBounded(count: nat, total: nat)
    requires count <= total && total > 0
    ensures 0 <= RoundDiv(100 * count, total) <= 100
  {
    var r := RoundDiv(100 * count, total);
    MulLe(200, count, total);
    MulCancel(total, 2 * r - 1, 200);
    MulCancel(total, 0, 2 * r + 1);
  }

  /** `n <= d` scaled by a non-negative factor. */
  lemma MulLe(c: nat, n: int, d: int)
    requires n <= d
    ensures c * n <= c * d
  {
  }

  /** A positive factor can be cancelled from an inequality. */
  lemma MulCancel(c: int, a: int, b: int)
    requires c > 0 && c * a <= c * b
    ensures a <= b
  {
    if a > b {
      MulLe(c, b + 1, a);
    }
  }

  /** The filtered list is part of the residents, so its share lies in [0, 100]. */
  lemma FilteredPercentage(rs: seq<Person>, f: Filters, today: Date, parse: DateParser)
    ensures var s := ComputeStats(Filtered(rs, f, today, parse), |rs|, today, parse);
      0 <= s.percentage <= 100
  {
    var filtered := Filtered(rs, f, today, parse);
    if filtered != [] {
      PercentageBounded(|filtered|, |rs|);
    }
  }

  /** The sum of ages in [lo, hi] is a number between `lo` and `hi` times the count. */
  lemma {:induction false} TotalAgeBounds(ps: seq<Person>, today: Date, parse: DateParser, lo: int, hi: int)
    requires forall p :: p in ps ==> AgeWithin(Age(p.birthDate, today, parse), lo, hi)
    ensures TotalAge(ps, today, parse).Some?
    ensures lo * |ps| <= TotalAge(ps, today, parse).value <= hi * |ps|
  {
    if ps != [] {
      var tail := ps[1..];
      assert forall p :: p in tail ==> p in ps;
      TotalAgeBounds(tail, today, parse, lo, hi);
      assert ps[0] in ps;
      MulSucc(lo, |tail|);
      MulSucc(hi, |tail|);
    }
  }

  /** Rounding a mean of values in [lo, hi] stays in [lo, hi]. */
  lemma RoundedMeanBounded(sum: int, count: int, lo: int, hi: int)
    requires count > 0 && lo * count <= sum <= hi * count
    ensures lo <= RoundDiv(sum, count) <= hi
  {
    var r := RoundDiv(sum, count);
    assert count * (2 * lo) <= 2 * sum < count * (2 * r + 1);
    MulCancel(count, 2 * lo, 2 * r + 1);
    assert count * (2 * r - 1) <= 2 * sum <= count * (2 * hi);
    MulCancel(count, 2 * r - 1, 2 * hi);
  }

  /** An age that is a number in [lo, hi]. */
  predicate AgeWithin(age: Option<int>, lo: int, hi: int) {
    age.Some? && lo <= age.value <= hi
  }

  /** The average age lies between the youngest and the oldest filtered resident's age. */
  lemma AverageAgeBounded(filtered: seq<Person>, total: nat, today: Date, parse: DateParser, lo: int, hi: int)
    requires filtered != []
    requires forall p :: p in filtered ==> AgeWithin(Age(p.birthDate, today, parse), lo, hi)
    ensures AgeWithin(ComputeStats(filtered, total, today, parse).avgAge, lo, hi)
  {
    TotalAgeBounds(filtered, today, parse, lo, hi);
    RoundedMeanBounded(TotalAge(filtered, today, parse).value, |filtered|, lo, hi);
  }

  /** One NaN age makes the sum, and so the average age, NaN. */
  lemma {:induction false} TotalAgeNaN(ps: seq<Person>, today: Date, parse: DateParser, i: nat)
    requires i < |ps| && Age(ps[i].birthDate, today, parse).None?
    ensures TotalAge(ps, today, parse).None?
  {
    if i > 0 {
      assert ps[1..][i - 1] == ps[i];
      TotalAgeNaN(ps[1..], today, parse, i - 1);
    }
  }

  /** One filtered resident with an unreadable birth date makes the average age NaN. */
  lemma AverageAgeNaN(filtered: seq<Person>, total: nat, today: Date, parse: DateParser, i: nat)
    requires i < |filtered| && filtered[i].birthDate != "" && parse(filtered[i].birthDate).None?
    ensures ComputeStats(filtered, total, today, parse).avgAge.None?
  {
    TotalAgeNaN(filtered, today, parse, i);
  }
}
