/**
 * The name aggregator of the leaderboard (`processNames` in app.js): it
 * walks the registry's records, classifies each of their names by the
 * authority (segment 2) and category (segment 3) of its '/'-separated
 * path, and keeps a per-authority tally of applications, DNS records and
 * deployments. At most ONE applications increment is granted per record,
 * across all authorities of that record.
 */
module Aggregator {
  import opened Wrappers
  import opened Text

  /** The tally of one authority. */
  datatype Stats = Stats(applications: nat, dns: nat, deployments: nat)

  /** A registry record; `names` is None when the record has no `names` field. */
  datatype Record = Record(names: Option<seq<string>>)

  /** The aggregated table: authority -> tally. */
  type Authorities = map<string, Stats>

  const Separator: char := '/'
  /** The tally of a new entry. */
  function Zero(): Stats { Stats(0, 0, 0) }

  /** What one name contributes: nothing, or an authority and, if present, a category. */
  datatype Classified = Ignored | Named(authority: string, category: Option<string>)

  /** `parts = name.split('/')`; segment 3 is `undefined` when there are exactly three segments. */
  function Classify(name: string): (c: Classified)
    ensures c.Named? <==> Occurrences(name, Separator) >= 2
    ensures c.Named? ==> Separator !in c.authority
  {
    SplitLength(name, Separator);
    var parts := Split(name, Separator);
    if |parts| > 2 then Named(parts[2], if |parts| > 3 then Some(parts[3]) else None)
    else Ignored
  }

  /** The tally of `a`, zero when `a` has no entry. */
  function StatsOf(m: Authorities, a: string): Stats
  {
    if a in m then m[a] else Zero()
  }

  // ---------------------------------------------------------------------
  // The aggregation, step by step, as the loops of processNames do it.
  // ---------------------------------------------------------------------

  /** One iteration of the inner loop on an already classified name. */
  function Step(m: Authorities, processed: bool, c: Classified): (Authorities, bool)
  {
    match c
    case Ignored => (m, processed)
    case Named(a, category) =>
      var s := StatsOf(m, a);
      if category == Some("applications") && !processed then
        (m[a := s.(applications := s.applications + 1)], true)
      else if category == Some("dns") then
        (m[a := s.(dns := s.dns + 1)], processed)
      else if category == Some("deployments") then
        (m[a := s.(deployments := s.deployments + 1)], processed)
      else
        (m[a := s], processed)
  }

  /** One iteration of the inner loop, on the table and the per-record flag. */
  function ApplyName(m: Authorities, processed: bool, name: string): (Authorities, bool)
  {
    Step(m, processed, Classify(name))
  }

  /** The inner loop over the names of one record, from a given table and flag. */
  function ApplyNames(m: Authorities, processed: bool, names: seq<string>): (Authorities, bool)
    decreases |names|
  {
    if names == [] then (m, processed)
    else
      var (m1, p1) := ApplyName(m, processed, names[0]);
      ApplyNames(m1, p1, names[1..])
  }

  /** One iteration of the outer loop: the flag starts false for every record that has names. */
  function ApplyRecord(m: Authorities, r: Record): Authorities
  {
    match r.names
    case None => m
    case Some(names) => ApplyNames(m, false, names).0
  }

  /** The outer loop over the records, from a given table. */
  function AggregateFrom(m: Authorities, data: seq<Record>): Authorities
    decreases |data|
  {
    if data == [] then m else AggregateFrom(ApplyRecord(m, data[0]), data[1..])
  }

  /** processNames: the outer loop from the empty table. */
  function Aggregate(data: seq<Record>): Authorities
  {
    AggregateFrom(map[], data)
  }

  // ---------------------------------------------------------------------
  // A closed-form description of the result, independent of the loops.
  // ---------------------------------------------------------------------

  /** The names of a record; none when the field is absent. */
  function NamesOf(r: Record): seq<string>
  {
    match r.names
    case None => []
    case Some(names) => names
  }

  /** The authority of the first name of the sequence whose category is "applications". */
  function FirstApplication(names: seq<string>): Option<string>
    decreases |names|
  {
    if names == [] then None
    else
      var c := Classify(names[0]);
      if c.Named? && c.category == Some("applications") then Some(c.authority)
      else FirstApplication(names[1..])
  }

  /** How many of the names name authority `a` with category `category`. */
  function CategoryCount(names: seq<string>, a: string, category: string): nat
    decreases |names|
  {
    if names == [] then 0
    else (if Classify(names[0]) == Named(a, Some(category)) then 1 else 0) + CategoryCount(names[1..], a, category)
  }

  /** The authorities of the names that have at least three segments. */
  function NamedAuthorities(names: seq<string>): set<string>
    decreases |names|
  {
    if names == [] then {}
    else
      var c := Classify(names[0]);
      (if c.Named? then {c.authority} else {}) + NamedAuthorities(names[1..])
  }

  /** The authorities that qualifying names of the records mention. */
  function Seen(data: seq<Record>): set<string>
    decreases |data|
  {
    if data == [] then {} else NamedAuthorities(NamesOf(data[0])) + Seen(data[1..])
  }

  /** How many records grant their one applications increment to `a`. */
  function ApplicationRecords(data: seq<Record>, a: string): nat
    decreases |data|
  {
    if data == [] then 0
    else (if FirstApplication(NamesOf(data[0])) == Some(a) then 1 else 0) + ApplicationRecords(data[1..], a)
  }

  /** How many records have at least one name of category "applications". */
  function RecordsWithApplication(data: seq<Record>): (n: nat)
    ensures n <= |data|
    decreases |data|
  {
    if data == [] then 0
    else (if FirstApplication(NamesOf(data[0])).Some? then 1 else 0) + RecordsWithApplication(data[1..])
  }

  /** How many names of all the records name `a` with `category`. */
  function RecordsCategoryCount(data: seq<Record>, a: string, category: string): nat
    decreases |data|
  {
    if data == [] then 0
    else CategoryCount(NamesOf(data[0]), a, category) + RecordsCategoryCount(data[1..], a, category)
  }

  /** The tally that authority `a` is expected to end up with. */
  function Expected(data: seq<Record>, a: string): Stats
  {
    Stats(ApplicationRecords(data, a),
          RecordsCategoryCount(data, a, "dns"),
          RecordsCategoryCount(data, a, "deployments"))
  }

  /** Component-wise sum of two tallies. */
  function Plus(s: Stats, t: Stats): Stats
  {
    Stats(s.applications + t.applications, s.dns + t.dns, s.deployments + t.deployments)
  }

  // ---------------------------------------------------------------------
  // The imperative aggregator.
  // ---------------------------------------------------------------------

  lemma {:induction false} ApplyNamesSnoc(m: Authorities, p: bool, names: seq<string>, name: string)
    ensures ApplyNames(m, p, names + [name]) == ApplyName(ApplyNames(m, p, names).0, ApplyNames(m, p, names).1, name)
    decreases |names|
  {
    if names == [] {
      assert ([] + [name])[1..] == [];
    } else {
      var (m1, p1) := ApplyName(m, p, names[0]);
      assert (names + [name])[0] == names[0];
      assert (names + [name])[1..] == names[1..] + [name];
      ApplyNamesSnoc(m1, p1, names[1..], name);
    }
  }

  lemma {:induction false} AggregateSnoc(m: Authorities, data: seq<Record>, r: Record)
    ensures AggregateFrom(m, data + [r]) == ApplyRecord(AggregateFrom(m, data), r)
    decreases |data|
  {
    if data == [] {
      assert ([] + [r])[1..] == [];
    } else {
      assert (data + [r])[0] == data[0];
      assert (data + [r])[1..] == data[1..] + [r];
      AggregateSnoc(ApplyRecord(m, data[0]), data[1..], r);
    }
  }

  /**
   * The callback of the inner `forEach`: one name of a record, on the table
   * and the record's `applicationProcessed` flag.
   */
  method ProcessName(authorities: Authorities, applicationProcessed: bool, name: string)
    returns (authorities': Authorities, applicationProcessed': bool)
    ensures (authorities', applicationProcessed') == ApplyName(authorities, applicationProcessed, name)
  {
    authorities', applicationProcessed' := authorities, applicationProcessed;
    var parts := Split(name, Separator);
    if |parts| > 2 {
      var authority := parts[2];
      var category: Option<string> := if |parts| > 3 then Some(parts[3]) else None;
      assert Classify(name) == Named(authority, category);
      if authority !in authorities' {
        authorities' := authorities'[authority := Zero()];
      }
      assert authorities' == authorities[authority := StatsOf(authorities, authority)];
      var s := authorities'[authority];
      if category == Some("applications") && !applicationProcessed' {
        authorities' := authorities'[authority := s.(applications := s.applications + 1)];
        assert authorities' == authorities[authority := s.(applications := s.applications + 1)];
        applicationProcessed' := true;
      } else if category == Some("dns") {
        authorities' := authorities'[authority := s.(dns := s.dns + 1)];
        assert authorities' == authorities[authority := s.(dns := s.dns + 1)];
      } else if category == Some("deployments") {
        authorities' := authorities'[authority := s.(deployments := s.deployments + 1)];
        assert authorities' == authorities[authority := s.(deployments := s.deployments + 1)];
      }
      assert (authorities', applicationProcessed') == Step(authorities, applicationProcessed, Named(authority, category));
    } else {
      assert Classify(name) == Ignored;
    }
  }

  /**
   * The callback of the outer `forEach`: a record with names runs the inner
   * loop with the flag reset to false; a record without names is skipped.
   */
  method ProcessRecord(authorities: Authorities, record: Record) returns (authorities': Authorities)
    ensures authorities' == ApplyRecord(authorities, record)
  {
    authorities' := authorities;
    if record.names.Some? {
      var names := record.names.value;
      var applicationProcessed := false;
      var j := 0;
      while j < |names|
        invariant 0 <= j <= |names|
        invariant (authorities', applicationProcessed) == ApplyNames(authorities, false, names[..j])
      {
        ApplyNamesSnoc(authorities, false, names[..j], names[j]);
        assert names[..j + 1] == names[..j] + [names[j]];
        authorities', applicationProcessed := ProcessName(authorities', applicationProcessed, names[j]);
        j := j + 1;
      }
      assert names[..|names|] == names;
    }
  }

  /**
   * processNames: the loop over the records. The result is the
   * aggregation, described in closed form: exactly the authorities that
   * qualifying names mention, each with its expected tally.
   */
  method ProcessNames(data: seq<Record>) returns (authorities: Authorities)
    ensures authorities == Aggregate(data)
    ensures authorities.Keys == Seen(data)
    ensures forall a :: a in authorities ==> authorities[a] == Expected(data, a)
  {
    authorities := map[];
    var i := 0;
    while i < |data|
      invariant 0 <= i <= |data|
      invariant authorities == AggregateFrom(map[], data[..i])
    {
      AggregateSnoc(map[], data[..i], data[i]);
      assert data[..i + 1] == data[..i] + [data[i]];
      authorities := ProcessRecord(authorities, data[i]);
      i := i + 1;
    }
    assert data[..|data|] == data;
    AggregateCharacterization(data);
  }

  // ---------------------------------------------------------------------
  // Properties.
  // ---------------------------------------------------------------------

  /** What one name adds to an authority's tally, given the record's flag. */
  function Contribution(p: bool, c: Classified, b: string): Stats
  {
    Stats(if !p && c == Named(b, Some("applications")) then 1 else 0,
          if c == Named(b, Some("dns")) then 1 else 0,
          if c == Named(b, Some("deployments")) then 1 else 0)
  }

  /**
   * One classified name: an ignored name changes nothing; otherwise its
   * authority gets an entry (zero when new), and the flag ends set exactly
   * when it was already set or the category is applications.
   */
  lemma StepEffect(m: Authorities, p: bool, c: Classified)
    ensures c.Ignored? ==> Step(m, p, c) == (m, p)
    ensures Step(m, p, c).0.Keys == m.Keys + (if c.Named? then {c.authority} else {})
    ensures Step(m, p, c).1 == (p || (c.Named? && c.category == Some("applications")))
  {
  }

  /**
   * One classified name, seen from the tally of any authority `b`: exactly
   * the counter its category selects goes up by one (applications only
   * while the record's flag is unset), and every other tally is untouched.
   */
  lemma StepTally(m: Authorities, p: bool, c: Classified, b: string)
    ensures StatsOf(Step(m, p, c).0, b) == Plus(StatsOf(m, b), Contribution(p, c, b))
  {
    var s := StatsOf(m, b);
    var s1 := StatsOf(Step(m, p, c).0, b);
    match c
    case Ignored =>
      assert s1 == s;
    case Named(a, category) =>
      if a != b {
        assert s1 == s;
      } else if category == Some("applications") && !p {
        assert s1 == s.(applications := s.applications + 1);
      } else if category == Some("dns") {
        assert s1 == s.(dns := s.dns + 1);
      } else if category == Some("deployments") {
        assert s1 == s.(deployments := s.deployments + 1);
      } else {
        assert s1 == s;
      }
  }

  /**
   * A name with any other category, or none, only makes sure its
   * authority has an entry: no counter changes and the flag stays.
   */
  lemma OtherCategoryOnlyEntry(m: Authorities, p: bool, name: string, a: string, category: Option<string>)
    requires Classify(name) == Named(a, category)
    requires category !in {Some("applications"), Some("dns"), Some("deployments")}
    ensures ApplyName(m, p, name) == (m[a := StatsOf(m, a)], p)
  {
  }

  /** A name whose split has at most two segments creates no entry and changes no counter. */
  lemma ShortNameNoEffect(m: Authorities, p: bool, name: string)
    requires |Split(name, Separator)| <= 2
    ensures ApplyName(m, p, name) == (m, p)
  {
  }

  /** A name with fewer than two '/' characters has at most two segments and is ignored. */
  lemma ShortNameIgnored(name: string)
    requires Occurrences(name, Separator) < 2
    ensures Classify(name) == Ignored
  {
    SplitLength(name, Separator);
  }

  /** Removing an ignored name from a record changes nothing: not the table, not the flag. */
  lemma {:induction false} IgnoredNameNoEffect(m: Authorities, p: bool, names: seq<string>, i: nat)
    requires i < |names| && Classify(names[i]) == Ignored
    ensures ApplyNames(m, p, names) == ApplyNames(m, p, names[..i] + names[i + 1..])
    decreases i
  {
    if i == 0 {
      assert names[..0] + names[1..] == names[1..];
    } else {
      var (m1, p1) := ApplyName(m, p, names[0]);
      IgnoredNameNoEffect(m1, p1, names[1..], i - 1);
      var rest := names[..i] + names[i + 1..];
      assert rest[0] == names[0];
      assert rest[1..] == names[1..][..i - 1] + names[1..][i..];
    }
  }

  /**
   * The names of one record, from any table and flag: the entries gained
   * are the authorities named, and the flag ends up set exactly when it
   * was set or some name has category applications.
   */
  lemma {:induction false} NamesEffect(m: Authorities, p: bool, names: seq<string>)
    ensures ApplyNames(m, p, names).0.Keys == m.Keys + NamedAuthorities(names)
    ensures ApplyNames(m, p, names).1 == (p || FirstApplication(names).Some?)
    decreases |names|
  {
    if names != [] {
      var (m1, p1) := ApplyName(m, p, names[0]);
      NamesEffect(m1, p1, names[1..]);
      StepEffect(m, p, Classify(names[0]));
    }
  }

  /** What the names of one record add to the tally of `a`, given the flag at the start. */
  function NamesTally(p: bool, names: seq<string>, a: string): Stats
  {
    Stats(if !p && FirstApplication(names) == Some(a) then 1 else 0,
          CategoryCount(names, a, "dns"),
          CategoryCount(names, a, "deployments"))
  }

  /**
   * The names of one record, seen from the tally of `a`: dns and
   * deployments go up by the number of matching names, and applications
   * goes up by one when the first applications name of the record is
   * `a`'s and the flag was unset, and otherwise not at all.
   */
  lemma {:induction false} NamesTallyEffect(m: Authorities, p: bool, names: seq<string>, a: string)
    ensures StatsOf(ApplyNames(m, p, names).0, a) == Plus(StatsOf(m, a), NamesTally(p, names, a))
    decreases |names|
  {
    if names != [] {
      var c := Classify(names[0]);
      var (m1, p1) := ApplyName(m, p, names[0]);
      NamesTallyEffect(m1, p1, names[1..], a);
      StepTally(m, p, c, a);
      StepEffect(m, p, c);
      if c.Named? && c.category == Some("applications") {
        assert p1 && FirstApplication(names) == Some(c.authority);
        assert NamesTally(p1, names[1..], a).applications == 0;
      } else {
        assert p1 == p && FirstApplication(names) == FirstApplication(names[1..]);
        assert Contribution(p, c, a).applications == 0;
      }
    }
  }

  /** The outer loop from any table: the entries gained are the authorities seen. */
  lemma {:induction false} AggregateEffect(m: Authorities, data: seq<Record>)
    ensures AggregateFrom(m, data).Keys == m.Keys + Seen(data)
    decreases |data|
  {
    if data != [] {
      NamesEffect(m, false, NamesOf(data[0]));
      AggregateEffect(ApplyRecord(m, data[0]), data[1..]);
    }
  }

  /** The outer loop from any table adds the closed-form tally of `a` to it. */
  lemma {:induction false} AggregateTally(m: Authorities, data: seq<Record>, a: string)
    ensures StatsOf(AggregateFrom(m, data), a) == Plus(StatsOf(m, a), Expected(data, a))
    decreases |data|
  {
    if data != [] {
      var m1 := ApplyRecord(m, data[0]);
      NamesTallyEffect(m, false, NamesOf(data[0]), a);
      assert StatsOf(m1, a) == Plus(StatsOf(m, a), NamesTally(false, NamesOf(data[0]), a));
      AggregateTally(m1, data[1..], a);
    }
  }

  /**
   * The result of processNames in closed form: an authority has an entry
   * exactly when some qualifying name mentions it, and its tally counts the
   * records whose first applications name is its own, and every dns and
   * deployments name of it. Absent authorities read as all-zero.
   */
  lemma AggregateCharacterization(data: seq<Record>)
    ensures Aggregate(data).Keys == Seen(data)
    ensures forall a :: StatsOf(Aggregate(data), a) == Expected(data, a)
  {
    AggregateEffect(map[], data);
    forall a ensures StatsOf(Aggregate(data), a) == Expected(data, a) {
      AggregateTally(map[], data, a);
    }
  }

  /** No qualifying name anywhere: the table is empty. */
  lemma EmptyWithoutQualifyingNames(data: seq<Record>)
    requires Seen(data) == {}
    ensures Aggregate(data) == map[]
  {
    AggregateCharacterization(data);
  }

  /** A record without names, or with an empty list of names, changes nothing. */
  lemma RecordWithoutNames(m: Authorities, r: Record)
    requires NamesOf(r) == []
    ensures ApplyRecord(m, r) == m
  {
  }

  // The sum of the applications counters of a table.

  ghost function TotalApplications(m: Authorities): nat
    decreases |m|
  {
    if m == map[] then 0
    else
      assert exists a :: a in m by {
        var a :| a in m.Keys;
      }
      var a :| a in m; m[a].applications + TotalApplications(m - {a})
  }

  lemma {:induction false} TotalApplicationsRemove(m: Authorities, a: string)
    requires a in m
    ensures TotalApplications(m) == m[a].applications + TotalApplications(m - {a})
    decreases |m|
  {
    var b :| b in m && TotalApplications(m) == m[b].applications + TotalApplications(m - {b});
    if b != a {
      assert |m - {b}| < |m| by { assert (m - {b}).Keys == m.Keys - {b}; }
      assert |m - {a}| < |m| by { assert (m - {a}).Keys == m.Keys - {a}; }
      TotalApplicationsRemove(m - {b}, a);
      TotalApplicationsRemove(m - {a}, b);
      assert m - {b} - {a} == m - {a} - {b};
    }
  }

  lemma TotalApplicationsUpdate(m: Authorities, a: string, s: Stats)
    ensures TotalApplications(m[a := s]) + StatsOf(m, a).applications == TotalApplications(m) + s.applications
  {
    TotalApplicationsRemove(m[a := s], a);
    assert m[a := s] - {a} == m - {a};
    if a in m {
      TotalApplicationsRemove(m, a);
    } else {
      assert m - {a} == m;
    }
  }

  /** One name raises the sum by one exactly when it takes the record's applications increment. */
  lemma StepTotal(m: Authorities, p: bool, c: Classified)
    ensures TotalApplications(Step(m, p, c).0)
         == TotalApplications(m) + (if !p && c.Named? && c.category == Some("applications") then 1 else 0)
  {
    match c
    case Ignored =>
    case Named(a, category) =>
      var m1 := Step(m, p, c).0;
      var x := m1[a];
      assert m1 == m[a := x];
      StepTally(m, p, c, a);
      assert x.applications == StatsOf(m, a).applications + (if !p && category == Some("applications") then 1 else 0);
      TotalApplicationsUpdate(m, a, x);
  }

  lemma {:induction false} NamesTotal(m: Authorities, p: bool, names: seq<string>)
    ensures TotalApplications(ApplyNames(m, p, names).0)
         == TotalApplications(m) + (if !p && FirstApplication(names).Some? then 1 else 0)
    decreases |names|
  {
    if names != [] {
      var c := Classify(names[0]);
      var (m1, p1) := Step(m, p, c);
      StepEffect(m, p, c);
      StepTotal(m, p, c);
      NamesTotal(m1, p1, names[1..]);
    }
  }

  lemma {:induction false} AggregateTotal(m: Authorities, data: seq<Record>)
    ensures TotalApplications(AggregateFrom(m, data)) == TotalApplications(m) + RecordsWithApplication(data)
    decreases |data|
  {
    if data != [] {
      NamesTotal(m, false, NamesOf(data[0]));
      AggregateTotal(ApplyRecord(m, data[0]), data[1..]);
    }
  }

  /**
   * The per-record cap: all applications counters together equal the number
   * of records that have an applications name, so they never exceed the
   * number of records.
   */
  lemma ApplicationsCap(data: seq<Record>)
    ensures TotalApplications(Aggregate(data)) == RecordsWithApplication(data)
    ensures TotalApplications(Aggregate(data)) <= |data|
  {
    AggregateTotal(map[], data);
  }

  /** A path built from separator-free segments is classified by its segments 2 and 3. */
  lemma ClassifyJoin(parts: seq<string>)
    requires |parts| > 2
    requires forall i :: 0 <= i < |parts| ==> Separator !in parts[i]
    ensures Classify(Join(parts, Separator))
         == Named(parts[2], if |parts| > 3 then Some(parts[3]) else None)
  {
    SplitJoin(parts, Separator);
  }

  /**
   * The applications increment is per record and shared by all authorities:
   * a record whose first applications name is A's and whose second is a
   * different authority B's credits A only, yet B still gets an entry.
   */
  lemma CrossAuthorityCap(a: string, b: string, n1: string, n2: string)
    requires a != b
    requires Classify(n1) == Named(a, Some("applications"))
    requires Classify(n2) == Named(b, Some("applications"))
    ensures Aggregate([Record(Some([n1, n2]))]) == map[a := Stats(1, 0, 0), b := Stats(0, 0, 0)]
  {
    var m1 := map[a := Stats(1, 0, 0)];
    var m2 := m1[b := Stats(0, 0, 0)];
    assert ApplyName(map[], false, n1) == (m1, true);
    assert ApplyName(m1, true, n2) == (m2, true);
    assert ApplyNames(m1, true, [n2]) == (m2, true) by {
      assert [n2][1..] == [];
    }
    assert ApplyNames(map[], false, [n1, n2]) == (m2, true) by {
      assert [n1, n2][1..] == [n2];
    }
    var r := Record(Some([n1, n2]));
    assert ApplyRecord(map[], r) == m2;
    assert Aggregate([r]) == AggregateFrom(m2, []) by {
      assert [r][1..] == [];
    }
    assert m2 == map[a := Stats(1, 0, 0), b := Stats(0, 0, 0)];
  }
}
