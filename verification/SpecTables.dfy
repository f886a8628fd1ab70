/** The specification tables and the guards that keep active ranges of one scope apart. */
module SpecTables {
  import opened Options
  import opened SpecSelection

  datatype VersionRow = VersionRow(profile: nat, version: nat, status: Status, effectiveFrom: Date,
                                   effectiveTo: Option<Date>)

  datatype Tables = Tables(profiles: map<nat, Scope>, versions: map<nat, VersionRow>)

  datatype Statement =
    | WriteProfile(profile: nat, scope: Scope)
    | WriteVersion(version: nat, row: VersionRow)
    | DeleteVersion(version: nat)

  predicate ProfilesExist(t: Tables) {
    forall id :: id in t.versions ==> t.versions[id].profile in t.profiles
  }

  /** A version joined with its profile. */
  function Joined(t: Tables, id: nat): Spec
    requires id in t.versions && t.versions[id].profile in t.profiles
  {
    var row := t.versions[id];
    Spec(id, t.profiles[row.profile], row.version, row.status, row.effectiveFrom, row.effectiveTo)
  }

  predicate RangesMeet(a: VersionRow, b: VersionRow) {
    && (b.effectiveTo.None? || a.effectiveFrom <= b.effectiveTo.value)
    && (a.effectiveTo.None? || b.effectiveFrom <= a.effectiveTo.value)
  }

  /** Another active version of the row's scope is effective on a day the row is. */
  predicate OverlapsScope(t: Tables, id: nat, row: VersionRow)
    requires ProfilesExist(t) && row.profile in t.profiles
  {
    exists other :: other in t.versions && other != id && t.versions[other].status == Active
                    && t.profiles[t.versions[other].profile] == t.profiles[row.profile]
                    && RangesMeet(t.versions[other], row)
  }

  predicate Accepts(t: Tables, s: Statement)
    requires ProfilesExist(t)
  {
    match s
    case WriteProfile(id, scope) =>
      !(id in t.profiles && t.profiles[id] != scope && exists v :: v in t.versions && t.versions[v].profile == id)
    case WriteVersion(id, row) =>
      row.profile in t.profiles && !(row.status == Active && OverlapsScope(t, id, row))
    case DeleteVersion(_) => true
  }

  function Execute(t: Tables, s: Statement): (after: Tables)
    requires ProfilesExist(t)
    ensures ProfilesExist(after)
  {
    if !Accepts(t, s) then t
    else match s
      case WriteProfile(id, scope) => t.(profiles := t.profiles[id := scope])
      case WriteVersion(id, row) => t.(versions := t.versions[id := row])
      case DeleteVersion(id) => t.(versions := t.versions - {id})
  }

  function ExecuteAll(statements: seq<Statement>): (t: Tables)
    ensures ProfilesExist(t)
  {
    if statements == [] then Tables(map[], map[])
    else Execute(ExecuteAll(statements[..|statements| - 1]), statements[|statements| - 1])
  }

  class SpecificationTables {
    var profiles: map<nat, Scope>
    var versions: map<nat, VersionRow>

    constructor ()
      ensures State() == Tables(map[], map[])
    {
      profiles, versions := map[], map[];
    }

    function State(): Tables
      reads this
    {
      Tables(profiles, versions)
    }

    /** Changes a profile's scope unless a version is bound to it. */
    method SaveProfile(id: nat, scope: Scope) returns (ok: bool)
      requires ProfilesExist(State())
      modifies this`profiles
      ensures ok == Accepts(old(State()), WriteProfile(id, scope))
      ensures State() == Execute(old(State()), WriteProfile(id, scope))
    {
      if id in profiles && profiles[id] != scope {
        if exists v :: v in versions && versions[v].profile == id {
          return false;
        }
      }
      profiles := profiles[id := scope];
      return true;
    }

    /** Saves a version unless it is active and overlaps its scope. */
    method SaveVersion(id: nat, row: VersionRow) returns (ok: bool)
      requires ProfilesExist(State())
      modifies this`versions
      ensures ok == Accepts(old(State()), WriteVersion(id, row))
      ensures State() == Execute(old(State()), WriteVersion(id, row))
    {
      if row.profile !in profiles {
        return false;
      }
      if row.status == Active && OverlapsScope(State(), id, row) {
        return false;
      }
      versions := versions[id := row];
      return true;
    }
  }

  ghost predicate ScopesApart(t: Tables)
    requires ProfilesExist(t)
  {
    forall a, b | a in t.versions && b in t.versions && a != b :: t.versions[a].status == t.versions[b].status == Active ==>
      !Overlaps(Joined(t, a), Joined(t, b))
  }

  lemma ExecuteKeepsScopesApart(t: Tables, s: Statement)
    requires ProfilesExist(t) && ScopesApart(t)
    ensures ScopesApart(Execute(t, s))
  {
    var after := Execute(t, s);
    forall a, b | a in after.versions && b in after.versions && a != b
                  && after.versions[a].status == after.versions[b].status == Active
      ensures !Overlaps(Joined(after, a), Joined(after, b))
    {
      if a in t.versions && b in t.versions && after.versions[a] == t.versions[a] && after.versions[b] == t.versions[b] {
        assert Joined(after, a) == Joined(t, a) && Joined(after, b) == Joined(t, b);
      }
    }
  }

  lemma {:induction false} ReachedScopesAreApart(statements: seq<Statement>)
    ensures ScopesApart(ExecuteAll(statements))
  {
    if statements != [] {
      ReachedScopesAreApart(statements[..|statements| - 1]);
      ExecuteKeepsScopesApart(ExecuteAll(statements[..|statements| - 1]), statements[|statements| - 1]);
    }
  }

  /** The rows come in some order, each version once. */
  ghost predicate Lists(t: Tables, specs: seq<Spec>)
    requires ProfilesExist(t)
  {
    && DistinctIds(specs)
    && forall k :: 0 <= k < |specs| ==> specs[k].id in t.versions && specs[k] == Joined(t, specs[k].id)
  }

  /** Whatever was written, a choice is ambiguous exactly between a supplier-only and a model-only scope. */
  lemma ReachedChoiceIsClear(statements: seq<Statement>, specs: seq<Spec>, need: Need)
    requires Lists(ExecuteAll(statements), specs)
    ensures DomainSelect(specs, need) == Ambiguous <==> Torn(Candidates(specs, need))
  {
    var t := ExecuteAll(statements);
    ReachedScopesAreApart(statements);
    forall i, j | 0 <= i < j < |specs| && specs[i].status == Active && specs[j].status == Active
      ensures !Overlaps(specs[i], specs[j])
    {
      assert specs[i] == Joined(t, specs[i].id) && specs[j] == Joined(t, specs[j].id);
      assert specs[i].id != specs[j].id;
    }
    AmbiguousIffTorn(specs, need);
  }

  /** A version with a profile is refused exactly when writing it would make two active versions of a scope overlap. */
  lemma VersionAcceptedIff(t: Tables, id: nat, row: VersionRow)
    requires ProfilesExist(t) && ScopesApart(t) && row.profile in t.profiles
    ensures ProfilesExist(t.(versions := t.versions[id := row]))
    ensures Accepts(t, WriteVersion(id, row)) <==> ScopesApart(t.(versions := t.versions[id := row]))
  {
    var written := t.(versions := t.versions[id := row]);
    if Accepts(t, WriteVersion(id, row)) {
      ExecuteKeepsScopesApart(t, WriteVersion(id, row));
    } else {
      var other :| other in t.versions && other != id && t.versions[other].status == Active
                   && t.profiles[t.versions[other].profile] == t.profiles[row.profile] && RangesMeet(t.versions[other], row);
      assert other in written.versions && id in written.versions;
      assert Overlaps(Joined(written, other), Joined(written, id));
    }
  }

  /** A profile is refused exactly when writing it would change the scope of a version bound to it. */
  lemma ProfileAcceptedIff(t: Tables, id: nat, scope: Scope)
    requires ProfilesExist(t)
    ensures ProfilesExist(t.(profiles := t.profiles[id := scope]))
    ensures Accepts(t, WriteProfile(id, scope)) <==>
      forall v | v in t.versions :: Joined(t.(profiles := t.profiles[id := scope]), v) == Joined(t, v)
  {
    var written := t.(profiles := t.profiles[id := scope]);
    if v :| v in t.versions && t.versions[v].profile == id && t.profiles[id] != scope {
      assert Joined(written, v).scope != Joined(t, v).scope;
    }
  }
}
