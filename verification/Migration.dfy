/** Choosing which source key fills each device role (host-utility/src/migrate_keys.rs). */
module Migration {
  import opened Prelude

  /** A source key: its alias and its `unencrypted:BLsk…` value. */
  datatype Entry = Entry(name: string, value: string)

  datatype Public = Public(pkh: string, pk: string)

  datatype DerivedPub = DerivedPub(sourceName: string, pkh: string, pk: string)

  datatype RoleMapping = RoleMapping(consensus: Option<string>, companion: Option<string>)

  datatype KeyRole = Consensus | Companion

  datatype RoleAssignment = RoleAssignment(role: KeyRole, sourceName: string, secretValue: string)

  datatype StoredKey = StoredKey(alias: string, pkh: string, pk: string)

  datatype Backup = Backup(assignments: seq<RoleAssignment>, stored: seq<StoredKey>)

  datatype MigrateError = InvalidSecret | WrongCount | OnlyOneResolves | SameKey | NoKeyNamed | AddressMismatch

  function DeviceAlias(role: KeyRole): string {
    match role
    case Consensus => "consensus"
    case Companion => "companion"
  }

  /** The first index from `i` on that satisfies `p`. */
  function FindFrom<T>(s: seq<T>, p: T -> bool, i: nat): (r: Option<nat>)
    requires i <= |s|
    ensures r.None? ==> forall j | i <= j < |s| :: !p(s[j])
    ensures r.Some? ==> i <= r.value < |s| && p(s[r.value]) && forall j | i <= j < r.value :: !p(s[j])
    decreases |s| - i
  {
    if i == |s| then None else if p(s[i]) then Some(i) else FindFrom(s, p, i + 1)
  }

  /** Public material of every entry; one underivable value fails them all. */
  function DeriveSourcePubs(entries: seq<Entry>, derive: string -> Option<Public>): Result<seq<DerivedPub>, MigrateError>
  {
    if entries == [] then Ok([])
    else
      match derive(entries[0].value)
      case None => Err(InvalidSecret)
      case Some(p) =>
        match DeriveSourcePubs(entries[1..], derive)
        case Err(e) => Err(e)
        case Ok(rest) => Ok([DerivedPub(entries[0].name, p.pkh, p.pk)] + rest)
  }

  function SourceAliasFor(derived: seq<DerivedPub>, key: string): Option<string> {
    var i := FindFrom(derived, (d: DerivedPub) => d.sourceName == key || d.pkh == key, 0);
    if i.Some? then Some(derived[i.value].sourceName) else None
  }

  /** An override becomes a source alias; one that matches nothing is kept as it is. */
  function Normalize(derived: seq<DerivedPub>, key: Option<string>): Option<string> {
    if key.None? then None
    else
      var alias := SourceAliasFor(derived, key.value);
      Some(if alias.Some? then alias.value else key.value)
  }

  function ResolveRoleMapping(derived: seq<DerivedPub>, explicit: RoleMapping, chain: Option<string>): RoleMapping {
    var consensus, companion := Normalize(derived, explicit.consensus), Normalize(derived, explicit.companion);
    var only := if consensus.None? && companion.None? && chain.Some? then OnlyMatch(derived, chain.value) else None;
    if only.Some? then RoleMapping(Some(only.value), None) else RoleMapping(consensus, companion)
  }

  /** The alias of the one key at this address, when there is exactly one. */
  function OnlyMatch(derived: seq<DerivedPub>, target: string): Option<string> {
    var first := FindFrom(derived, (d: DerivedPub) => d.pkh == target, 0);
    if first.None? then None
    else
      var second := FindFrom(derived, (d: DerivedPub) => d.pkh == target, first.value + 1);
      if second.Some? then None else Some(derived[first.value].sourceName)
  }

  function RemainingSourceKey(entries: seq<Entry>, taken: string): Result<string, MigrateError> {
    var i := FindFrom(entries, (e: Entry) => e.name != taken, 0);
    if i.Some? then Ok(entries[i.value].name) else Err(OnlyOneResolves)
  }

  /** The source aliases for the two roles, before the distinctness check. */
  function SourceFor(entries: seq<Entry>, mapping: RoleMapping): Result<(string, string), MigrateError> {
    match (mapping.consensus, mapping.companion)
    case (None, None) => if |entries| != 2 then Err(WrongCount) else Ok((entries[0].name, entries[1].name))
    case (Some(c), Some(k)) => Ok((c, k))
    case (Some(c), None) =>
      (match RemainingSourceKey(entries, c) case Ok(rest) => Ok((c, rest)) case Err(e) => Err(e))
    case (None, Some(k)) =>
      (match RemainingSourceKey(entries, k) case Ok(rest) => Ok((rest, k)) case Err(e) => Err(e))
  }

  function SecretOf(entries: seq<Entry>, name: string): Option<string> {
    var i := FindFrom(entries, (e: Entry) => e.name == name, 0);
    if i.Some? then Some(entries[i.value].value) else None
  }

  function AssignRoles(entries: seq<Entry>, mapping: RoleMapping): (r: Result<seq<RoleAssignment>, MigrateError>)
    ensures r.Ok? ==> |r.value| == 2
  {
    match SourceFor(entries, mapping)
    case Err(e) => Err(e)
    case Ok((c, k)) =>
      if c == k then Err(SameKey)
      else
        match (SecretOf(entries, c), SecretOf(entries, k))
        case (Some(cv), Some(kv)) => Ok([RoleAssignment(Consensus, c, cv), RoleAssignment(Companion, k, kv)])
        case _ => Err(NoKeyNamed)
  }

  /** The public record written for an assignment, unless the source lists another address for it. */
  function StoredFor(derived: seq<DerivedPub>, listed: map<string, string>, a: RoleAssignment): Result<StoredKey, MigrateError> {
    var i := FindFrom(derived, (d: DerivedPub) => d.sourceName == a.sourceName, 0);
    if i.None? then Err(NoKeyNamed)
    else
      var public := derived[i.value];
      if a.sourceName in listed && listed[a.sourceName] != public.pkh then Err(AddressMismatch)
      else Ok(StoredKey(DeviceAlias(a.role), public.pkh, public.pk))
  }

  /** An absent address file is the empty `listed`. */
  function BuildMigratedBackup(entries: seq<Entry>, derive: string -> Option<Public>, listed: map<string, string>,
                               explicit: RoleMapping, chain: Option<string>): Result<Backup, MigrateError>
  {
    match DeriveSourcePubs(entries, derive)
    case Err(e) => Err(e)
    case Ok(derived) =>
      match AssignRoles(entries, ResolveRoleMapping(derived, explicit, chain))
      case Err(e) => Err(e)
      case Ok(assignments) =>
        match StoredFor(derived, listed, assignments[0])
        case Err(e) => Err(e)
        case Ok(first) =>
          match StoredFor(derived, listed, assignments[1])
          case Err(e) => Err(e)
          case Ok(second) => Ok(Backup(assignments, [first, second]))
  }

  // ---------------------------------------------------------------------------
  // What a migration is meant to choose
  // ---------------------------------------------------------------------------

  ghost predicate Distinct(entries: seq<Entry>) {
    forall i, j | 0 <= i < j < |entries| :: entries[i].name != entries[j].name
  }

  ghost predicate Derivable(entries: seq<Entry>, derive: string -> Option<Public>) {
    forall i | 0 <= i < |entries| :: derive(entries[i].value).Some?
  }

  ghost predicate Named(d: DerivedPub, key: string) {
    d.sourceName == key || d.pkh == key
  }

  /** `key`, an alias or an address, refers to the first source key it fits. */
  ghost predicate Refers(derived: seq<DerivedPub>, key: string, i: nat) {
    i < |derived| && Named(derived[i], key) && forall j | 0 <= j < i :: !Named(derived[j], key)
  }

  ghost predicate OnlyAt(derived: seq<DerivedPub>, target: string, i: nat) {
    i < |derived| && derived[i].pkh == target && forall j | 0 <= j < |derived| && derived[j].pkh == target :: j == i
  }

  /** The first source key other than `taken`. */
  ghost predicate FirstOther(taken: nat, i: nat) {
    i == if taken == 0 then 1 else 0
  }

  /** Source keys `c` and `k` are the ones the rules pick for consensus and companion. */
  ghost predicate Picked(derived: seq<DerivedPub>, explicit: RoleMapping, chain: Option<string>, c: nat, k: nat) {
    c < |derived| && k < |derived| && c != k &&
    match (explicit.consensus, explicit.companion)
    case (Some(x), Some(y)) => Refers(derived, x, c) && Refers(derived, y, k)
    case (Some(x), None) => Refers(derived, x, c) && FirstOther(c, k)
    case (None, Some(y)) => Refers(derived, y, k) && FirstOther(k, c)
    case (None, None) =>
      if chain.Some? && (exists m: nat :: OnlyAt(derived, chain.value, m))
      then OnlyAt(derived, chain.value, c) && FirstOther(c, k)
      else |derived| == 2 && c == 0 && k == 1
  }

  /** The source does not list another address for key `i`. */
  ghost predicate Agrees(derived: seq<DerivedPub>, listed: map<string, string>, i: nat)
    requires i < |derived|
  {
    derived[i].sourceName in listed ==> listed[derived[i].sourceName] == derived[i].pkh
  }

  /** Secret, address and public key of `c` and of `k`, each verbatim under its role. */
  function BackupOf(entries: seq<Entry>, derived: seq<DerivedPub>, c: nat, k: nat): Backup
    requires |derived| == |entries| && c < |entries| && k < |entries|
  {
    Backup([RoleAssignment(Consensus, entries[c].name, entries[c].value), RoleAssignment(Companion, entries[k].name, entries[k].value)],
           [StoredKey("consensus", derived[c].pkh, derived[c].pk), StoredKey("companion", derived[k].pkh, derived[k].pk)])
  }

  // ---------------------------------------------------------------------------
  // The code picks exactly that
  // ---------------------------------------------------------------------------

  ghost predicate DerivedFrom(entries: seq<Entry>, derive: string -> Option<Public>, derived: seq<DerivedPub>) {
    |derived| == |entries|
    && forall i | 0 <= i < |entries| ::
         derive(entries[i].value).Some?
         && derived[i] == DerivedPub(entries[i].name, derive(entries[i].value).value.pkh, derive(entries[i].value).value.pk)
  }

  lemma {:induction false} DeriveExact(entries: seq<Entry>, derive: string -> Option<Public>)
    ensures var d := DeriveSourcePubs(entries, derive);
            if Derivable(entries, derive) then d.Ok? && DerivedFrom(entries, derive, d.value) else d == Err(InvalidSecret)
  {
    if entries != [] {
      DeriveExact(entries[1..], derive);
      assert Derivable(entries, derive) <==> derive(entries[0].value).Some? && Derivable(entries[1..], derive);
    }
  }

  ghost predicate SameNames(entries: seq<Entry>, derived: seq<DerivedPub>) {
    |derived| == |entries| && Distinct(entries) && forall i | 0 <= i < |entries| :: derived[i].sourceName == entries[i].name
  }

  lemma ReferenceResolved(entries: seq<Entry>, derived: seq<DerivedPub>, key: string) returns (i: Option<nat>)
    requires SameNames(entries, derived)
    ensures i.Some? ==> Refers(derived, key, i.value) && Normalize(derived, Some(key)) == Some(entries[i.value].name)
    ensures i.None? ==> (forall j: nat :: !Refers(derived, key, j)) && Normalize(derived, Some(key)) == Some(key)
                        && SecretOf(entries, key) == None
  {
    i := FindFrom(derived, (d: DerivedPub) => d.sourceName == key || d.pkh == key, 0);
    if i.None? {
      forall j | 0 <= j < |entries| ensures entries[j].name != key {
        assert derived[j].sourceName != key;
      }
    }
  }

  lemma OnlyMatchExact(derived: seq<DerivedPub>, target: string) returns (i: Option<nat>)
    ensures i.Some? ==> OnlyAt(derived, target, i.value) && OnlyMatch(derived, target) == Some(derived[i.value].sourceName)
    ensures i.None? ==> OnlyMatch(derived, target) == None && forall m: nat :: !OnlyAt(derived, target, m)
  {
    var p := (d: DerivedPub) => d.pkh == target;
    i := FindFrom(derived, p, 0);
    if i.Some? {
      var second := FindFrom(derived, p, i.value + 1);
      if second.Some? {
        var first := i.value;
        forall m: nat ensures !OnlyAt(derived, target, m) {
          assert derived[first].pkh == target && derived[second.value].pkh == target;
        }
        i := None;
      }
    }
  }

  lemma StoredIndex(entries: seq<Entry>, derived: seq<DerivedPub>, listed: map<string, string>, role: KeyRole, i: nat)
    requires SameNames(entries, derived) && i < |entries|
    ensures StoredFor(derived, listed, RoleAssignment(role, entries[i].name, entries[i].value)) ==
              if Agrees(derived, listed, i) then Ok(StoredKey(DeviceAlias(role), derived[i].pkh, derived[i].pk)) else Err(AddressMismatch)
  {
  }

  /** The assignment that names source keys `c` and `k`. */
  function Assigned(entries: seq<Entry>, c: nat, k: nat): seq<RoleAssignment>
    requires c < |entries| && k < |entries|
  {
    [RoleAssignment(Consensus, entries[c].name, entries[c].value), RoleAssignment(Companion, entries[k].name, entries[k].value)]
  }

  lemma AssignedByName(entries: seq<Entry>, mapping: RoleMapping, c: nat, k: nat)
    requires Distinct(entries) && c < |entries| && k < |entries|
    requires SourceFor(entries, mapping) == Ok((entries[c].name, entries[k].name))
    ensures AssignRoles(entries, mapping) == if c == k then Err(SameKey) else Ok(Assigned(entries, c, k))
  {
  }

  /** One override given: it is followed, and the first other key takes the remaining role. */
  lemma OneOverride(entries: seq<Entry>, derived: seq<DerivedPub>, mapping: RoleMapping, taken: nat)
    requires SameNames(entries, derived) && taken < |entries|
    requires mapping == RoleMapping(Some(entries[taken].name), None) || mapping == RoleMapping(None, Some(entries[taken].name))
    ensures |entries| == 1 ==> AssignRoles(entries, mapping).Err?
    ensures |entries| > 1 ==> var other := if taken == 0 then 1 else 0;
              AssignRoles(entries, mapping) ==
                Ok(if mapping.consensus.Some? then Assigned(entries, taken, other) else Assigned(entries, other, taken))
  {
  }

  ghost predicate Chooses(entries: seq<Entry>, derived: seq<DerivedPub>, explicit: RoleMapping, chain: Option<string>)
    requires |derived| == |entries|
  {
    var r := AssignRoles(entries, ResolveRoleMapping(derived, explicit, chain));
    (r.Ok? ==> exists c: nat, k: nat :: Picked(derived, explicit, chain, c, k) && r.value == Assigned(entries, c, k))
    && (r.Err? ==> forall c: nat, k: nat :: !Picked(derived, explicit, chain, c, k))
  }

  lemma ChoosesByOverrides(entries: seq<Entry>, derived: seq<DerivedPub>, explicit: RoleMapping, chain: Option<string>)
    requires SameNames(entries, derived) && explicit.consensus.Some? && explicit.companion.Some?
    ensures Chooses(entries, derived, explicit, chain)
  {
    var c := ReferenceResolved(entries, derived, explicit.consensus.value);
    var k := ReferenceResolved(entries, derived, explicit.companion.value);
    if c.Some? && k.Some? {
      AssignedByName(entries, ResolveRoleMapping(derived, explicit, chain), c.value, k.value);
      if c.value != k.value {
        assert Picked(derived, explicit, chain, c.value, k.value);
      }
    }
  }

  lemma ChoosesByOneOverride(entries: seq<Entry>, derived: seq<DerivedPub>, explicit: RoleMapping, chain: Option<string>)
    requires SameNames(entries, derived) && explicit.consensus.Some? != explicit.companion.Some?
    ensures Chooses(entries, derived, explicit, chain)
  {
    var key := if explicit.consensus.Some? then explicit.consensus.value else explicit.companion.value;
    var i := ReferenceResolved(entries, derived, key);
    if i.Some? {
      OneOverride(entries, derived, ResolveRoleMapping(derived, explicit, chain), i.value);
      if |entries| > 1 {
        var other := if i.value == 0 then 1 else 0;
        if explicit.consensus.Some? {
          assert Picked(derived, explicit, chain, i.value, other);
        } else {
          assert Picked(derived, explicit, chain, other, i.value);
        }
      }
    }
  }

  lemma ChoosesWithoutOverride(entries: seq<Entry>, derived: seq<DerivedPub>, chain: Option<string>)
    requires SameNames(entries, derived)
    ensures Chooses(entries, derived, RoleMapping(None, None), chain)
  {
    var explicit := RoleMapping(None, None);
    var only: Option<nat> := None;
    if chain.Some? {
      only := OnlyMatchExact(derived, chain.value);
    }
    var mapping := ResolveRoleMapping(derived, explicit, chain);
    if only.Some? {
      OneOverride(entries, derived, mapping, only.value);
      if |entries| > 1 {
        var other := if only.value == 0 then 1 else 0;
        assert Picked(derived, explicit, chain, only.value, other);
      }
    } else if |entries| == 2 {
      AssignedByName(entries, mapping, 0, 1);
      assert Picked(derived, explicit, chain, 0, 1);
    }
  }

  lemma ChoosesAlways(entries: seq<Entry>, derived: seq<DerivedPub>, explicit: RoleMapping, chain: Option<string>)
    requires SameNames(entries, derived)
    ensures Chooses(entries, derived, explicit, chain)
  {
    if explicit.consensus.Some? && explicit.companion.Some? {
      ChoosesByOverrides(entries, derived, explicit, chain);
    } else if explicit.consensus.Some? || explicit.companion.Some? {
      ChoosesByOneOverride(entries, derived, explicit, chain);
    } else {
      ChoosesWithoutOverride(entries, derived, chain);
    }
  }

  lemma PickedUnique(derived: seq<DerivedPub>, explicit: RoleMapping, chain: Option<string>, c: nat, k: nat, c': nat, k': nat)
    requires Picked(derived, explicit, chain, c, k) && Picked(derived, explicit, chain, c', k')
    ensures c == c' && k == k'
  {
  }

  /**
   * Migration of distinctly named keys is exact: it succeeds with a given backup if and only if
   * every secret is derivable, the rules pick two different keys, the source lists no other address
   * for them, and the backup holds those two keys verbatim.
   */
  lemma MigrationExact(entries: seq<Entry>, derive: string -> Option<Public>, listed: map<string, string>,
                       explicit: RoleMapping, chain: Option<string>, derived: seq<DerivedPub>, backup: Backup)
    requires Distinct(entries) && (Derivable(entries, derive) ==> DerivedFrom(entries, derive, derived))
    ensures BuildMigratedBackup(entries, derive, listed, explicit, chain) == Ok(backup) <==>
              (Derivable(entries, derive) && exists c: nat, k: nat ::
                Picked(derived, explicit, chain, c, k) && Agrees(derived, listed, c) && Agrees(derived, listed, k)
                && backup == BackupOf(entries, derived, c, k))
  {
    DeriveExact(entries, derive);
    if Derivable(entries, derive) {
      assert DeriveSourcePubs(entries, derive).value == derived;
      ChoosesAlways(entries, derived, explicit, chain);
      var r := AssignRoles(entries, ResolveRoleMapping(derived, explicit, chain));
      if r.Ok? {
        var c: nat, k: nat :| Picked(derived, explicit, chain, c, k) && r.value == Assigned(entries, c, k);
        StoredIndex(entries, derived, listed, Consensus, c);
        StoredIndex(entries, derived, listed, Companion, k);
        forall c': nat, k': nat | Picked(derived, explicit, chain, c', k') ensures c' == c && k' == k {
          PickedUnique(derived, explicit, chain, c, k, c', k');
        }
      }
    }
  }

  ghost predicate RefersToNone(derived: seq<DerivedPub>, key: string) {
    forall i | 0 <= i < |derived| :: !Named(derived[i], key)
  }

  /** Both overrides mean one and the same key, or are one and the same name that no key has. */
  ghost predicate SameReference(derived: seq<DerivedPub>, x: string, y: string) {
    || (exists i: nat :: Refers(derived, x, i) && Refers(derived, y, i))
    || (RefersToNone(derived, x) && RefersToNone(derived, y) && x == y)
  }

  ghost predicate UniqueOnChain(derived: seq<DerivedPub>, chain: Option<string>) {
    chain.Some? && exists m: nat :: OnlyAt(derived, chain.value, m)
  }

  /** Why no keys can be assigned. */
  ghost predicate Unassignable(derived: seq<DerivedPub>, explicit: RoleMapping, chain: Option<string>, e: MigrateError) {
    match (explicit.consensus, explicit.companion)
    case (Some(x), Some(y)) =>
      if SameReference(derived, x, y) then e == SameKey else (RefersToNone(derived, x) || RefersToNone(derived, y)) && e == NoKeyNamed
    case (Some(x), None) => OneUnassignable(derived, x, e)
    case (None, Some(y)) => OneUnassignable(derived, y, e)
    case (None, None) =>
      if UniqueOnChain(derived, chain) then |derived| == 1 && e == OnlyOneResolves else |derived| != 2 && e == WrongCount
  }

  ghost predicate OneUnassignable(derived: seq<DerivedPub>, x: string, e: MigrateError) {
    if RefersToNone(derived, x) then e == (if derived == [] then OnlyOneResolves else NoKeyNamed)
    else |derived| == 1 && e == OnlyOneResolves
  }

  lemma ReferenceCases(entries: seq<Entry>, derived: seq<DerivedPub>, key: string) returns (i: Option<nat>)
    requires SameNames(entries, derived)
    ensures i.Some? ==> Refers(derived, key, i.value) && Normalize(derived, Some(key)) == Some(entries[i.value].name) && !RefersToNone(derived, key)
    ensures i.None? ==> RefersToNone(derived, key) && Normalize(derived, Some(key)) == Some(key) && SecretOf(entries, key) == None
                        && forall e | e in entries :: e.name != key
  {
    i := ReferenceResolved(entries, derived, key);
    if i.None? {
      var j := FindFrom(derived, (d: DerivedPub) => d.sourceName == key || d.pkh == key, 0);
      forall e | e in entries
        ensures e.name != key
      {
        var n :| 0 <= n < |entries| && entries[n] == e;
        assert derived[n].sourceName != key;
      }
    } else {
      assert Named(derived[i.value], key);
    }
  }

  lemma UnassignableByOverrides(entries: seq<Entry>, derived: seq<DerivedPub>, explicit: RoleMapping, chain: Option<string>)
    requires SameNames(entries, derived) && explicit.consensus.Some? && explicit.companion.Some?
    ensures var r := AssignRoles(entries, ResolveRoleMapping(derived, explicit, chain));
            r.Err? ==> Unassignable(derived, explicit, chain, r.error)
  {
    var x, y := explicit.consensus.value, explicit.companion.value;
    var i := ReferenceCases(entries, derived, x);
    var j := ReferenceCases(entries, derived, y);
    if i.Some? && j.Some? {
      AssignedByName(entries, ResolveRoleMapping(derived, explicit, chain), i.value, j.value);
    } else if i.Some? || j.Some? {
      assert !SameReference(derived, x, y);
      assert entries[if i.Some? then i.value else j.value] in entries;
    }
  }

  lemma UnassignableByOne(entries: seq<Entry>, derived: seq<DerivedPub>, mapping: RoleMapping, key: string, i: Option<nat>)
    requires SameNames(entries, derived) && (i.Some? ==> i.value < |entries|)
    requires var name := if i.Some? then entries[i.value].name else key;
             mapping == RoleMapping(Some(name), None) || mapping == RoleMapping(None, Some(name))
    requires i.None? ==> SecretOf(entries, key) == None && forall e | e in entries :: e.name != key
    ensures var r := AssignRoles(entries, mapping);
            && (i.Some? ==> (r.Err? <==> |entries| == 1) && (r.Err? ==> r.error == OnlyOneResolves))
            && (i.None? ==> r == Err(if entries == [] then OnlyOneResolves else NoKeyNamed))
  {
    if i.Some? {
      OneOverride(entries, derived, mapping, i.value);
      if |entries| == 1 {
        var j := FindFrom(entries, (e: Entry) => e.name != entries[i.value].name, 0);
      }
    } else {
      var j := FindFrom(entries, (e: Entry) => e.name != key, 0);
      if entries != [] {
        assert entries[0] in entries;
        assert j == Some(0);
      }
    }
  }

  /** The error of a migration that finds no keys for the roles tells why. */
  lemma UnassignableExact(entries: seq<Entry>, derived: seq<DerivedPub>, explicit: RoleMapping, chain: Option<string>)
    requires SameNames(entries, derived)
    ensures var r := AssignRoles(entries, ResolveRoleMapping(derived, explicit, chain));
            r.Err? ==> Unassignable(derived, explicit, chain, r.error)
  {
    var mapping := ResolveRoleMapping(derived, explicit, chain);
    if explicit.consensus.Some? && explicit.companion.Some? {
      UnassignableByOverrides(entries, derived, explicit, chain);
    } else if explicit.consensus.Some? || explicit.companion.Some? {
      var key := if explicit.consensus.Some? then explicit.consensus.value else explicit.companion.value;
      var i := ReferenceCases(entries, derived, key);
      UnassignableByOne(entries, derived, mapping, key, i);
    } else if chain.Some? {
      var only := OnlyMatchExact(derived, chain.value);
      if only.Some? {
        UnassignableByOne(entries, derived, mapping, "", only);
      }
    }
  }

  /** Each refusal of a migration of distinctly named keys, from the source file, the overrides and the chain alone. */
  lemma {:induction false} RefusalExact(entries: seq<Entry>, derive: string -> Option<Public>, listed: map<string, string>, explicit: RoleMapping,
                                        chain: Option<string>, derived: seq<DerivedPub>, e: MigrateError)
    requires Distinct(entries) && (Derivable(entries, derive) ==> DerivedFrom(entries, derive, derived))
    requires BuildMigratedBackup(entries, derive, listed, explicit, chain) == Err(e)
    ensures !Derivable(entries, derive) ==> e == InvalidSecret
    ensures Derivable(entries, derive) ==>
              || Unassignable(derived, explicit, chain, e)
              || (e == AddressMismatch && exists c: nat, k: nat ::
                    Picked(derived, explicit, chain, c, k) && !(Agrees(derived, listed, c) && Agrees(derived, listed, k)))
  {
    DeriveExact(entries, derive);
    if Derivable(entries, derive) {
      assert DeriveSourcePubs(entries, derive).value == derived;
      ChoosesAlways(entries, derived, explicit, chain);
      UnassignableExact(entries, derived, explicit, chain);
      var r := AssignRoles(entries, ResolveRoleMapping(derived, explicit, chain));
      if r.Ok? {
        var c: nat, k: nat :| Picked(derived, explicit, chain, c, k) && r.value == Assigned(entries, c, k);
        StoredIndex(entries, derived, listed, Consensus, c);
        StoredIndex(entries, derived, listed, Companion, k);
      }
    }
  }

  /** The two keys a backup was made from. */
  lemma {:induction false} PickOf(entries: seq<Entry>, derive: string -> Option<Public>, listed: map<string, string>, explicit: RoleMapping,
                                  chain: Option<string>, derived: seq<DerivedPub>, backup: Backup) returns (c: nat, k: nat)
    requires Distinct(entries) && (Derivable(entries, derive) ==> DerivedFrom(entries, derive, derived))
    requires BuildMigratedBackup(entries, derive, listed, explicit, chain) == Ok(backup)
    ensures Derivable(entries, derive) && Picked(derived, explicit, chain, c, k) && backup == BackupOf(entries, derived, c, k)
  {
    MigrationExact(entries, derive, listed, explicit, chain, derived, backup);
    c, k :| Picked(derived, explicit, chain, c, k) && backup == BackupOf(entries, derived, c, k);
  }

  lemma PairIsAll(entries: seq<Entry>, c: nat, k: nat)
    requires |entries| == 2 && c < 2 && k < 2 && c != k
    ensures multiset([entries[c], entries[k]]) == multiset(entries)
  {
    assert entries == [entries[0], entries[1]];
  }

  /** With exactly two source keys a migration is a bijection: nothing lost, nothing used twice. */
  lemma TwoKeysBijection(entries: seq<Entry>, derive: string -> Option<Public>, listed: map<string, string>,
                         explicit: RoleMapping, chain: Option<string>, backup: Backup)
    requires Distinct(entries) && |entries| == 2
    requires BuildMigratedBackup(entries, derive, listed, explicit, chain) == Ok(backup)
    ensures |backup.assignments| == 2
    ensures var a := backup.assignments;
            multiset([Entry(a[0].sourceName, a[0].secretValue), Entry(a[1].sourceName, a[1].secretValue)]) == multiset(entries)
  {
    DeriveExact(entries, derive);
    var derived := DeriveSourcePubs(entries, derive).value;
    var c, k := PickOf(entries, derive, listed, explicit, chain, derived, backup);
    PairIsAll(entries, c, k);
    assert Entry(entries[c].name, entries[c].value) == entries[c] && Entry(entries[k].name, entries[k].value) == entries[k];
  }

  // ---------------------------------------------------------------------------
  // Repeated aliases
  // ---------------------------------------------------------------------------

  /** The first entry with this alias. */
  ghost predicate FirstNamed(entries: seq<Entry>, name: string, j: nat) {
    j < |entries| && entries[j].name == name && forall i | 0 <= i < j :: entries[i].name != name
  }

  function Override(explicit: RoleMapping, role: KeyRole): Option<string> {
    match role
    case Consensus => explicit.consensus
    case Companion => explicit.companion
  }

  function Slot(role: KeyRole): nat {
    match role
    case Consensus => 0
    case Companion => 1
  }

  lemma FirstNamedSecret(entries: seq<Entry>, name: string, j: nat)
    requires FirstNamed(entries, name, j)
    ensures SecretOf(entries, name) == Some(entries[j].value)
  {
    var i := FindFrom(entries, (e: Entry) => e.name == name, 0);
    assert entries[j].name == name;
  }

  lemma FirstNamedStored(entries: seq<Entry>, derived: seq<DerivedPub>, listed: map<string, string>, a: RoleAssignment, j: nat)
    requires |derived| == |entries| && forall i | 0 <= i < |entries| :: derived[i].sourceName == entries[i].name
    requires FirstNamed(entries, a.sourceName, j) && StoredFor(derived, listed, a).Ok?
    ensures StoredFor(derived, listed, a).value == StoredKey(DeviceAlias(a.role), derived[j].pkh, derived[j].pk)
  {
    var i := FindFrom(derived, (d: DerivedPub) => d.sourceName == a.sourceName, 0);
    assert derived[j].sourceName == a.sourceName;
  }

  /** With both, one or no override, the overridden role is given the alias its key resolves to. */
  lemma OverrideNames(entries: seq<Entry>, derived: seq<DerivedPub>, explicit: RoleMapping, chain: Option<string>, role: KeyRole, i: nat)
    requires Override(explicit, role).Some? && Refers(derived, Override(explicit, role).value, i)
    requires AssignRoles(entries, ResolveRoleMapping(derived, explicit, chain)).Ok?
    ensures var a := AssignRoles(entries, ResolveRoleMapping(derived, explicit, chain)).value[Slot(role)];
            a.role == role && a.sourceName == derived[i].sourceName && SecretOf(entries, a.sourceName) == Some(a.secretValue)
  {
    var key := Override(explicit, role).value;
    var k := FindFrom(derived, (d: DerivedPub) => d.sourceName == key || d.pkh == key, 0);
    assert k == Some(i);
  }

  /**
   * Whatever the aliases, an override that refers to key `i` is filled from the first entry that
   * carries its alias, secret and public record alike; so it gets the key it refers to exactly
   * when that first entry holds the same secret.
   */
  lemma {:induction false} OverrideSecretIff(entries: seq<Entry>, derive: string -> Option<Public>, listed: map<string, string>, explicit: RoleMapping,
                          chain: Option<string>, derived: seq<DerivedPub>, backup: Backup, role: KeyRole, i: nat, j: nat)
    requires DeriveSourcePubs(entries, derive) == Ok(derived)
    requires BuildMigratedBackup(entries, derive, listed, explicit, chain) == Ok(backup)
    requires Override(explicit, role).Some? && Refers(derived, Override(explicit, role).value, i)
    requires i < |entries| && FirstNamed(entries, entries[i].name, j)
    ensures |derived| == |entries| && |backup.assignments| == 2 && |backup.stored| == 2
    ensures backup.assignments[Slot(role)] == RoleAssignment(role, entries[i].name, entries[j].value)
    ensures backup.stored[Slot(role)] == StoredKey(DeviceAlias(role), derived[j].pkh, derived[j].pk)
    ensures backup.assignments[Slot(role)].secretValue == entries[i].value <==> entries[j].value == entries[i].value
  {
    DeriveExact(entries, derive);
    OverrideNames(entries, derived, explicit, chain, role, i);
    FirstNamedSecret(entries, entries[i].name, j);
    FirstNamedStored(entries, derived, listed, backup.assignments[Slot(role)], j);
  }

  /** For instance, an override by the address of the second of two keys with one alias. */
  lemma RepeatedAliasMisleads(derive: string -> Option<Public>)
    requires derive("s1") == Some(Public("tz4a", "pk1")) && derive("s2") == Some(Public("tz4b", "pk2"))
             && derive("s3") == Some(Public("tz4c", "pk3"))
    ensures var entries := [Entry("a", "s1"), Entry("a", "s2"), Entry("b", "s3")];
            var r := BuildMigratedBackup(entries, derive, map[], RoleMapping(Some("tz4b"), Some("b")), None);
            r.Ok? && r.value.assignments[0].secretValue == "s1"
  {
    var entries := [Entry("a", "s1"), Entry("a", "s2"), Entry("b", "s3")];
    DeriveExact(entries, derive);
    var derived := DeriveSourcePubs(entries, derive).value;
    assert derived == [DerivedPub("a", "tz4a", "pk1"), DerivedPub("a", "tz4b", "pk2"), DerivedPub("b", "tz4c", "pk3")];
    assert FindFrom(derived, (d: DerivedPub) => d.sourceName == "tz4b" || d.pkh == "tz4b", 0) == Some(1);
    assert FindFrom(derived, (d: DerivedPub) => d.sourceName == "b" || d.pkh == "b", 0) == Some(2);
    var mapping := ResolveRoleMapping(derived, RoleMapping(Some("tz4b"), Some("b")), None);
    assert mapping == RoleMapping(Some("a"), Some("b"));
    assert FindFrom(entries, (e: Entry) => e.name == "a", 0) == Some(0);
    assert FindFrom(entries, (e: Entry) => e.name == "b", 0) == Some(2);
    assert AssignRoles(entries, mapping) == Ok([RoleAssignment(Consensus, "a", "s1"), RoleAssignment(Companion, "b", "s3")]);
    assert FindFrom(derived, (d: DerivedPub) => d.sourceName == "a", 0) == Some(0);
    assert FindFrom(derived, (d: DerivedPub) => d.sourceName == "b", 0) == Some(2);
  }

  /** The two roles get one secret exactly when the two keys the rules pick hold it both. */
  lemma {:induction false} SameSecretIff(entries: seq<Entry>, derive: string -> Option<Public>, listed: map<string, string>, explicit: RoleMapping,
                      chain: Option<string>, derived: seq<DerivedPub>, backup: Backup, c: nat, k: nat)
    requires Distinct(entries) && Derivable(entries, derive) && DerivedFrom(entries, derive, derived)
    requires Picked(derived, explicit, chain, c, k) && BuildMigratedBackup(entries, derive, listed, explicit, chain) == Ok(backup)
    ensures |backup.assignments| == 2
    ensures backup.assignments[0].secretValue == backup.assignments[1].secretValue <==> entries[c].value == entries[k].value
  {
    var c', k' := PickOf(entries, derive, listed, explicit, chain, derived, backup);
    PickedUnique(derived, explicit, chain, c, k, c', k');
  }

  /** So different values in the source file mean different secrets, whatever the overrides and the chain say. */
  lemma {:induction false} DistinctSecretsStayDistinct(entries: seq<Entry>, derive: string -> Option<Public>, listed: map<string, string>,
                                    explicit: RoleMapping, chain: Option<string>, backup: Backup)
    requires Distinct(entries) && forall i, j | 0 <= i < j < |entries| :: entries[i].value != entries[j].value
    requires BuildMigratedBackup(entries, derive, listed, explicit, chain) == Ok(backup)
    ensures |backup.assignments| == 2 && backup.assignments[0].secretValue != backup.assignments[1].secretValue
  {
    DeriveExact(entries, derive);
    var derived := DeriveSourcePubs(entries, derive).value;
    var c, k := PickOf(entries, derive, listed, explicit, chain, derived, backup);
    SameSecretIff(entries, derive, listed, explicit, chain, derived, backup, c, k);
  }

  /** For instance, two aliases for one secret. */
  lemma SameSecretTwice(derive: string -> Option<Public>, chain: Option<string>)
    requires derive("s") == Some(Public("tz4", "pk"))
    ensures var r := BuildMigratedBackup([Entry("a", "s"), Entry("b", "s")], derive, map[], RoleMapping(None, None), chain);
            r.Ok? && r.value.assignments[0].secretValue == r.value.assignments[1].secretValue
  {
    var entries := [Entry("a", "s"), Entry("b", "s")];
    DeriveExact(entries, derive);
    var derived := DeriveSourcePubs(entries, derive).value;
    assert derived[0].pkh == derived[1].pkh == "tz4";
    assert Picked(derived, RoleMapping(None, None), chain, 0, 1);
    assert Agrees(derived, map[], 0) && Agrees(derived, map[], 1);
    MigrationExact(entries, derive, map[], RoleMapping(None, None), chain, derived, BackupOf(entries, derived, 0, 1));
  }
}
