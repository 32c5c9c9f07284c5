/**
 * The octez-client wallet files and the local alias rename (host-utility/src/keys.rs).
 *
 * Every read and write consults a fault schedule, so a statement about all schedules is a
 * statement about every pattern of I/O failures. A write replaces its file or leaves it alone.
 */
module Wallet {
  import opened Prelude

  /** A JSON object of a wallet file; `name` is absent when it has no string member of that name. */
  datatype Entry = Entry(name: Option<string>, value: string)

  datatype WalletFile = Absent | Garbled | Entries(entries: seq<Entry>)

  /** `public_key_hashs` (the primary file), `public_keys` and `secret_keys`. */
  type Files = seq<WalletFile>

  const FILE_COUNT: nat := 3

  predicate Has(es: seq<Entry>, alias: string) {
    exists e | e in es :: e.name == Some(alias)
  }

  /** Entries not carrying the alias, in order. */
  function Drop(es: seq<Entry>, alias: string): seq<Entry> {
    if es == [] then []
    else if es[0].name == Some(alias) then Drop(es[1..], alias)
    else [es[0]] + Drop(es[1..], alias)
  }

  /** The first entry carrying `from` now carries `to`. */
  function RenameFirst(es: seq<Entry>, from: string, to: string): seq<Entry> {
    if es == [] then []
    else if es[0].name == Some(from) then [es[0].(name := Some(to))] + es[1..]
    else [es[0]] + RenameFirst(es[1..], from, to)
  }

  /** The file after a completed rename: untouched when the alias is not in it. */
  function Renamed(f: WalletFile, from: string, to: string): WalletFile {
    if f.Entries? && Has(Drop(f.entries, to), from) then Entries(RenameFirst(Drop(f.entries, to), from, to)) else f
  }

  datatype Outcome = Outcome(files: Files, ok: bool, tick: nat)

  /** One file of a rename: skip it, fail, or rewrite it. */
  function RenameOne(p: Outcome, i: nat, from: string, to: string, fails: nat -> bool): (r: Outcome)
    requires i < |p.files|
    ensures |r.files| == |p.files|
  {
    var f := p.files[i];
    if f.Absent? then p
    else if fails(p.tick) || f.Garbled? then p.(ok := false, tick := p.tick + 1)
    else if !Has(Drop(f.entries, to), from) then p.(tick := p.tick + 1)
    else if fails(p.tick + 1) then p.(ok := false, tick := p.tick + 2)
    else Outcome(p.files[i := Renamed(f, from, to)], true, p.tick + 2)
  }

  /** The first `n` files of a rename, stopping at the first failure. */
  function RenameUpTo(files: Files, n: nat, from: string, to: string, fails: nat -> bool, tick: nat): (r: Outcome)
    requires n <= |files|
    ensures |r.files| == |files|
  {
    if n == 0 then Outcome(files, true, tick)
    else
      var p := RenameUpTo(files, n - 1, from, to, fails, tick);
      if p.ok then RenameOne(p, n - 1, from, to, fails) else p
  }

  /** The alias was present in the primary file when it was read. */
  predicate InPrimary(files: Files, from: string, to: string) {
    files != [] && files[0].Entries? && Has(Drop(files[0].entries, to), from)
  }

  /** The whole rename; a source alias missing from the primary file is an error. */
  function Rename(files: Files, from: string, to: string, fails: nat -> bool, tick: nat): (r: Outcome)
    ensures |r.files| == |files|
  {
    var p := RenameUpTo(files, |files|, from, to, fails, tick);
    p.(ok := p.ok && InPrimary(files, from, to))
  }

  // ---------------------------------------------------------------------------
  // What a rename can leave behind
  // ---------------------------------------------------------------------------

  lemma {:induction false} RenameUpToFacts(files: Files, n: nat, from: string, to: string, fails: nat -> bool, tick: nat)
    requires n <= |files|
    ensures var p := RenameUpTo(files, n, from, to, fails, tick);
            && (forall i | n <= i < |files| :: p.files[i] == files[i])
            && (forall i | 0 <= i < n :: p.files[i] == files[i] || p.files[i] == Renamed(files[i], from, to))
            && (p.ok ==> forall i | 0 <= i < n :: p.files[i] == Renamed(files[i], from, to))
  {
    if n > 0 {
      RenameUpToFacts(files, n - 1, from, to, fails, tick);
    }
  }

  /**
   * Under every fault schedule each file is either as before or completely renamed, and a rename
   * that reports success renamed them all and had the alias in the primary file.
   */
  ghost predicate Renames(before: Files, after: Files, ok: bool, from: string, to: string) {
    && |after| == |before|
    && (forall i | 0 <= i < |before| :: after[i] == before[i] || after[i] == Renamed(before[i], from, to))
    && (ok ==> InPrimary(before, from, to) && forall i | 0 <= i < |before| :: after[i] == Renamed(before[i], from, to))
  }

  lemma RenameFacts(files: Files, from: string, to: string, fails: nat -> bool, tick: nat)
    ensures var r := Rename(files, from, to, fails, tick);
            Renames(files, r.files, r.ok, from, to)
  {
    RenameUpToFacts(files, |files|, from, to, fails, tick);
  }

  lemma {:induction false} FaultFree(files: Files, n: nat, from: string, to: string, fails: nat -> bool, tick: nat)
    requires n <= |files|
    requires forall t: nat :: !fails(t)
    requires forall i | 0 <= i < |files| :: !files[i].Garbled?
    ensures RenameUpTo(files, n, from, to, fails, tick).ok
  {
    if n > 0 {
      FaultFree(files, n - 1, from, to, fails, tick);
      RenameUpToFacts(files, n - 1, from, to, fails, tick);
    }
  }

  /** Without faults, a rename succeeds exactly when the alias is in the primary file. */
  lemma RenameSucceeds(files: Files, from: string, to: string, fails: nat -> bool, tick: nat)
    requires forall t: nat :: !fails(t)
    requires forall i | 0 <= i < |files| :: !files[i].Garbled?
    ensures Rename(files, from, to, fails, tick).ok <==> InPrimary(files, from, to)
  {
    FaultFree(files, |files|, from, to, fails, tick);
  }

  /** When file `n` is reached: an absent file costs nothing, one without the alias a read, another a write too. */
  function TickAt(files: Files, n: nat, from: string, to: string, tick: nat): nat
    requires n <= |files|
  {
    if n == 0 then tick
    else
      var f := files[n - 1];
      TickAt(files, n - 1, from, to, tick)
      + if f.Absent? then 0 else if f.Entries? && Has(Drop(f.entries, to), from) then 2 else 1
  }

  /** File `i` ends the rename: its read, its parse or its write fails. */
  predicate Blocks(files: Files, i: nat, from: string, to: string, fails: nat -> bool, tick: nat)
    requires i < |files|
  {
    var f, t := files[i], TickAt(files, i, from, to, tick);
    !f.Absent? && (f.Garbled? || fails(t) || (Has(Drop(f.entries, to), from) && fails(t + 1)))
  }

  predicate Completes(files: Files, n: nat, from: string, to: string, fails: nat -> bool, tick: nat)
    requires n <= |files|
  {
    forall j: nat | j < n :: !Blocks(files, j, from, to, fails, tick)
  }

  /** Exactly the files up to the first blocking one are renamed. */
  lemma {:induction false} RenameUpToExact(files: Files, n: nat, from: string, to: string, fails: nat -> bool, tick: nat)
    requires n <= |files|
    ensures var p := RenameUpTo(files, n, from, to, fails, tick);
            && (p.ok <==> Completes(files, n, from, to, fails, tick))
            && (p.ok ==> p.tick == TickAt(files, n, from, to, tick))
            && (forall i: nat | i < |files| ::
                  p.files[i] == if i < n && Completes(files, i + 1, from, to, fails, tick) then Renamed(files[i], from, to) else files[i])
  {
    if n > 0 {
      RenameUpToExact(files, n - 1, from, to, fails, tick);
      var p := RenameUpTo(files, n - 1, from, to, fails, tick);
      assert p.files[n - 1] == files[n - 1];
      assert Completes(files, n, from, to, fails, tick) <==>
        Completes(files, n - 1, from, to, fails, tick) && !Blocks(files, n - 1, from, to, fails, tick);
    }
  }

  // ---------------------------------------------------------------------------
  // A file with distinct names as a map, and a rename as a relabelling
  // ---------------------------------------------------------------------------

  ghost predicate Distinct(es: seq<Entry>) {
    forall i, j | 0 <= i < j < |es| && es[i].name.Some? :: es[i].name != es[j].name
  }

  ghost predicate DistinctNames(files: Files) {
    forall i | 0 <= i < |files| && files[i].Entries? :: Distinct(files[i].entries)
  }

  /** The value an alias resolves to in a file. */
  ghost predicate Maps(f: WalletFile, alias: string, value: string) {
    f.Entries? && Entry(Some(alias), value) in f.entries
  }

  ghost predicate Lists(f: WalletFile, alias: string) {
    f.Entries? && Has(f.entries, alias)
  }

  lemma {:induction false} DropFacts(es: seq<Entry>, alias: string)
    ensures forall e :: e in Drop(es, alias) <==> e in es && e.name != Some(alias)
    ensures !Has(es, alias) ==> Drop(es, alias) == es
  {
    if es != [] {
      DropFacts(es[1..], alias);
      assert es == [es[0]] + es[1..];
      assert es[0] in es;
      forall e | e in es[1..] ensures e in es {}
    }
  }

  lemma {:induction false} DropDistinct(es: seq<Entry>, alias: string)
    requires Distinct(es)
    ensures Distinct(Drop(es, alias))
  {
    if es != [] {
      DropDistinct(es[1..], alias);
      DropFacts(es[1..], alias);
      var rest := Drop(es[1..], alias);
      forall j | 0 <= j < |rest| && es[0].name.Some?
        ensures rest[j].name != es[0].name
      {
        assert rest[j] in rest;
        assert rest[j] in es[1..];
      }
    }
  }

  function Relabel(e: Entry, from: string, to: string): Entry {
    if e.name == Some(from) then e.(name := Some(to)) else e
  }

  function RelabelAll(es: seq<Entry>, from: string, to: string): (r: seq<Entry>)
    ensures |r| == |es| && forall i | 0 <= i < |es| :: r[i] == Relabel(es[i], from, to)
  {
    seq(|es|, i requires 0 <= i < |es| => Relabel(es[i], from, to))
  }

  /** With distinct names, renaming the first occurrence renames the only one and keeps its place. */
  lemma {:induction false} RenameFirstIsRelabel(es: seq<Entry>, from: string, to: string)
    requires Distinct(es)
    ensures RenameFirst(es, from, to) == RelabelAll(es, from, to)
  {
    if es != [] {
      if es[0].name == Some(from) {
        assert forall j | 0 < j < |es| :: es[j].name != Some(from);
      } else {
        RenameFirstIsRelabel(es[1..], from, to);
      }
    }
  }

  lemma RelabelDistinct(es: seq<Entry>, from: string, to: string)
    requires Distinct(es) && !Has(es, to)
    ensures Distinct(RelabelAll(es, from, to))
  {
  }

  /** A completed rename on a file with distinct names, as a change of the alias map. */
  lemma RenamedMaps(f: WalletFile, from: string, to: string)
    requires from != to && (f.Entries? ==> Distinct(f.entries))
    ensures var g := Renamed(f, from, to);
            && (g.Entries? <==> f.Entries?)
            && (g.Entries? ==> Distinct(g.entries))
            && (Lists(f, from) ==> !Lists(g, from))
            && (!Lists(f, from) ==> g == f)
            && (forall v :: Lists(f, from) ==> (Maps(g, to, v) <==> Maps(f, from, v)))
            && (forall a, v :: a != from && a != to ==> (Maps(g, a, v) <==> Maps(f, a, v)))
  {
    if f.Entries? {
      var kept := Drop(f.entries, to);
      DropFacts(f.entries, to);
      DropDistinct(f.entries, to);
      assert Has(kept, from) <==> Has(f.entries, from);
      RenameFirstIsRelabel(kept, from, to);
      RelabelDistinct(kept, from, to);
      RelabelMembers(kept, from, to);
    }
  }

  lemma RelabelMembers(es: seq<Entry>, from: string, to: string)
    requires from != to && !Has(es, to)
    ensures var r := RelabelAll(es, from, to);
            && !Has(r, from)
            && (forall v :: Entry(Some(to), v) in r <==> Entry(Some(from), v) in es)
            && (forall a, v :: a != from && a != to ==> (Entry(Some(a), v) in r <==> Entry(Some(a), v) in es))
  {
  }

  /** With a free target the rename is a pure relabelling, order included. */
  lemma RenamedIsRelabel(f: WalletFile, from: string, to: string)
    requires f.Entries? ==> Distinct(f.entries)
    requires Lists(f, from) ==> !Lists(f, to)
    ensures Renamed(f, from, to) == if f.Entries? then Entries(RelabelAll(f.entries, from, to)) else f
  {
    if f.Entries? {
      DropFacts(f.entries, to);
      if Lists(f, from) {
        RenameFirstIsRelabel(f.entries, from, to);
      } else {
        assert RelabelAll(f.entries, from, to) == f.entries by {
          forall i | 0 <= i < |f.entries| ensures Relabel(f.entries[i], from, to) == f.entries[i] {
            assert f.entries[i] in f.entries;
          }
        }
      }
    }
  }

  /** Renaming back exactly undoes a rename whose target was free. */
  lemma RenameBackUndoes(f: WalletFile, from: string, to: string)
    requires from != to && (f.Entries? ==> Distinct(f.entries)) && !Lists(f, to)
    ensures Renamed(Renamed(f, from, to), to, from) == f
  {
    var g := Renamed(f, from, to);
    RenamedMaps(f, from, to);
    RenamedIsRelabel(f, from, to);
    RenamedIsRelabel(g, to, from);
    if f.Entries? {
      forall i | 0 <= i < |f.entries|
        ensures Relabel(Relabel(f.entries[i], from, to), to, from) == f.entries[i]
      {
        assert f.entries[i] in f.entries;
      }
      assert RelabelAll(g.entries, to, from) == f.entries;
    }
  }
}
