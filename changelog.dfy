/**
  The changelog store: a mapping from version label to the ordered list of
  change descriptions recorded under it, with the pseudo-version "develop"
  holding the changes not yet released.

  A PHP array is a map that also has an order of its keys. The state is
  therefore a `Log`: the map `entries` and the key order `order`. The pure
  step functions below say what each operation of the store does to a `Log`;
  the class `Changelog` performs the same operations in place.
 */
module ChangelogStore {
  import opened VersionSort

  /** The pseudo-version that holds the changes not yet released. */
  const Develop: string := "develop"

  /** Labels paired with their change lists, in the order they are listed. */
  type Listing = seq<(string, seq<string>)>

  datatype Log = Log(entries: map<string, seq<string>>, order: seq<string>)

  /** The key order lists every label of the map exactly once. */
  ghost predicate WellFormed(l: Log) {
    Distinct(l.order) && (forall k :: k in l.order <==> k in l.entries)
  }

  /** What an operation reports: success, the "nothing to tag" warning, or a rejected label. */
  datatype Status = Done | NoDevelop | InvalidVersion(rejected: string)

  datatype Step = Step(status: Status, log: Log)

  /** PHP's `$a += $b` on two lists: the union by index, the entries of `a` winning. */
  function ListUnion(a: seq<string>, b: seq<string>): (r: seq<string>)
    ensures |r| == if |a| >= |b| then |a| else |b|
    ensures forall i :: 0 <= i < |r| ==> r[i] == if i < |a| then a[i] else b[i]
  {
    if |b| > |a| then a + b[|a|..] else a
  }

  /** `s` without `x`, the rest in their order (PHP's `unset` and `array_diff` on keys). */
  function Remove(s: seq<string>, x: string): (r: seq<string>)
    ensures forall y :: y in r <==> y in s && y != x
    ensures Distinct(s) ==> Distinct(r)
    ensures x !in s ==> r == s
  {
    if s == [] then []
    else if s[0] == x then Remove(s[1..], x)
    else
      var t := Remove(s[1..], x);
      assert Distinct(s) ==> Distinct([s[0]] + t) by {
        if Distinct(s) {
          DistinctTail(s);
          DistinctCons(s[0], t);
        }
      }
      assert s == [s[0]] + s[1..];
      [s[0]] + t
  }

  /** Deleting a key that sits at index `k` keeps the keys before and after it in their order. */
  lemma {:induction false} RemoveAt(s: seq<string>, x: string, k: nat)
    requires Distinct(s) && k < |s| && s[k] == x
    ensures Remove(s, x) == s[..k] + s[k + 1..]
  {
    DistinctTail(s);
    if k == 0 {
      assert x !in s[1..] by {
        forall j | 0 <= j < |s[1..]| ensures s[1..][j] != x {
          assert s[1..][j] == s[j + 1];
        }
      }
    } else {
      assert s[0] != x;
      RemoveAt(s[1..], x, k - 1);
      assert s[1..][..k - 1] + s[1..][k..] == s[1..k] + s[k + 1..];
      assert [s[0]] + s[1..k] == s[..k];
    }
  }

  /** Taking "develop" out of distinct labels takes out exactly one occurrence. */
  lemma {:induction false} RemoveDevelopMultiset(keys: seq<string>)
    requires Distinct(keys)
    ensures multiset(keys) == (if Develop in keys then multiset{Develop} else multiset{}) + multiset(Remove(keys, Develop))
  {
    if keys != [] {
      assert keys == [keys[0]] + keys[1..];
      DistinctTail(keys);
      if keys[0] != Develop {
        RemoveDevelopMultiset(keys[1..]);
      }
    }
  }

  /**
    The private `addVersion`: a label not yet present is created with an empty
    list, after it has been validated as a version unless it is "develop".
   */
  function AddVersionOp(validVersion: string -> bool, l: Log, v: string): (r: Step)
    requires WellFormed(l)
    ensures WellFormed(r.log)
    ensures r.status == Done || r.status == InvalidVersion(v)
    ensures r.status == Done <==> v in l.entries || v == Develop || validVersion(v)
    ensures r.status == Done ==> v in r.log.entries
    ensures v in l.entries || r.status != Done ==> r.log == l
    ensures r.status == Done && v !in l.entries ==>
      && r.log.entries.Keys == l.entries.Keys + {v}
      && r.log.entries[v] == []
      && (forall k :: k in l.entries ==> r.log.entries[k] == l.entries[k])
      && r.log.order == l.order + [v]
  {
    if v in l.entries then Step(Done, l)
    else if v != Develop && !validVersion(v) then Step(InvalidVersion(v), l)
    else Step(Done, Log(l.entries[v := []], l.order + [v]))
  }

  /** `add`: appends a change to the list of label `v`, creating the label first if need be. */
  function AddOp(validVersion: string -> bool, l: Log, change: string, v: string): (r: Step)
    requires WellFormed(l)
    ensures WellFormed(r.log)
    ensures r.status == Done || r.status == InvalidVersion(v)
    ensures r.status == Done <==> v in l.entries || v == Develop || validVersion(v)
    ensures r.status != Done ==> r.log == l
    ensures r.status == Done ==>
      && v in r.log.entries
      && r.log.entries[v] == (if v in l.entries then l.entries[v] else []) + [change]
      && r.log.entries.Keys == l.entries.Keys + {v}
      && (forall k :: k in l.entries && k != v ==> r.log.entries[k] == l.entries[k])
      && r.log.order == (if v in l.entries then l.order else l.order + [v])
  {
    var s := AddVersionOp(validVersion, l, v);
    if s.status != Done then s
    else Step(Done, Log(s.log.entries[v := s.log.entries[v] + [change]], s.log.order))
  }

  /** The second half of `tag`, once `v` is present: the union into `v`, then "develop" deleted. */
  function FoldDevelop(l: Log, v: string): (r: Log)
    requires WellFormed(l) && Develop in l.entries && v in l.entries
    ensures WellFormed(r)
    ensures Develop !in r.entries
    ensures r.entries.Keys == l.entries.Keys - {Develop}
    ensures v != Develop ==> r.entries[v] == ListUnion(l.entries[v], l.entries[Develop])
    ensures forall k :: k in l.entries && k != v && k != Develop ==> r.entries[k] == l.entries[k]
    ensures r.order == Remove(l.order, Develop)
  {
    var e := l.entries;
    Log(e[v := ListUnion(e[v], e[Develop])] - {Develop}, Remove(l.order, Develop))
  }

  /**
    `tag`: folds the "develop" list into label `v` and deletes "develop". With
    no "develop" label it only warns. The fold is PHP's list union, so a label
    that already holds k changes receives only the develop changes from index k on.
   */
  function TagOp(validVersion: string -> bool, l: Log, v: string): (r: Step)
    requires WellFormed(l)
    ensures WellFormed(r.log)
    ensures r.status == NoDevelop <==> Develop !in l.entries
    ensures r.status == InvalidVersion(v) <==>
      Develop in l.entries && v !in l.entries && v != Develop && !validVersion(v)
    ensures r.status in {Done, NoDevelop, InvalidVersion(v)}
    ensures r.status != Done ==> r.log == l
    ensures r.status == Done ==>
      && Develop !in r.log.entries
      && r.log.entries.Keys == (l.entries.Keys + {v}) - {Develop}
      && (v != Develop ==>
            r.log.entries[v] == ListUnion(if v in l.entries then l.entries[v] else [], l.entries[Develop]))
      && (forall k :: k in l.entries && k != v && k != Develop ==> r.log.entries[k] == l.entries[k])
      && r.log.order == Remove(if v in l.entries then l.order else l.order + [v], Develop)
  {
    if Develop !in l.entries then Step(NoDevelop, l)
    else
      var s := AddVersionOp(validVersion, l, v);
      if s.status != Done then s
      else Step(Done, FoldDevelop(s.log, v))
  }

  /**
    The key order the private `sort` produces: "develop" first when present,
    then every other label from highest to lowest version precedence.
   */
  function SortedKeys(le: (string, string) -> bool, keys: seq<string>): (r: seq<string>)
    requires Distinct(keys)
    ensures Distinct(r) && multiset(r) == multiset(keys)
    ensures Develop in keys ==> r[0] == Develop
    ensures var rest := if Develop in keys then r[1..] else r;
      Develop !in rest && (TotalPreorder(le) ==> Descending(le, rest))
  {
    var others := RSort(le, Remove(keys, Develop));
    var r := (if Develop in keys then [Develop] else []) + others;
    assert TotalPreorder(le) ==> Descending(le, others) by {
      if TotalPreorder(le) {
        RSortDescending(le, Remove(keys, Develop));
      }
    }
    RemoveDevelopMultiset(keys);
    assert (if Develop in keys then r[1..] else r) == others;
    r
  }

  /** The private `sort`: reorders the labels and leaves every list as it was. */
  function SortOp(le: (string, string) -> bool, l: Log): (r: Log)
    requires WellFormed(l)
    ensures WellFormed(r)
    ensures r.entries == l.entries
    ensures multiset(r.order) == multiset(l.order)
    ensures Develop in l.entries ==> r.order[0] == Develop
    ensures var rest := if Develop in l.entries then r.order[1..] else r.order;
      Develop !in rest && (TotalPreorder(le) ==> Descending(le, rest))
  {
    var keys := SortedKeys(le, l.order);
    assert forall k :: k in keys <==> k in multiset(keys);
    Log(l.entries, keys)
  }

  /** The labels with their lists, in key order: what `changelog()` returns and `save` writes. */
  function Listed(l: Log): (p: Listing)
    requires WellFormed(l)
  {
    seq(|l.order|, i requires 0 <= i < |l.order| => (l.order[i], l.entries[l.order[i]]))
  }

  /** No label occurs twice in a listing, as in a decoded JSON object. */
  predicate DistinctLabels(p: Listing) {
    forall i, j :: 0 <= i < j < |p| ==> p[i].0 != p[j].0
  }

  /** `load`: the decoded changelog file, its labels in file order. */
  function Decoded(p: Listing): (l: Log)
    requires DistinctLabels(p)
    ensures WellFormed(l)
    ensures |l.order| == |p|
    ensures forall i :: 0 <= i < |p| ==> l.order[i] == p[i].0 && l.entries[p[i].0] == p[i].1
  {
    if p == [] then Log(map[], [])
    else
      var (k, changes) := p[|p| - 1];
      var l := Decoded(p[..|p| - 1]);
      assert k !in l.order by {
        forall i | 0 <= i < |l.order| ensures l.order[i] != k {
          assert l.order[i] == p[i].0;
        }
      }
      Log(l.entries[k := changes], l.order + [k])
  }

  /** Listing a decoded changelog gives back the file's labels and lists, in the file's order. */
  lemma ListedDecoded(p: Listing)
    requires DistinctLabels(p)
    ensures Listed(Decoded(p)) == p
  {
    var r := Listed(Decoded(p));
    assert forall i :: 0 <= i < |p| ==> r[i] == p[i];
  }

  /** The listing of a log has its labels in key order, so no label twice. */
  lemma ListedLabels(l: Log)
    requires WellFormed(l)
    ensures var p := Listed(l);
      && DistinctLabels(p) && |p| == |l.order|
      && forall i :: 0 <= i < |p| ==> p[i] == (l.order[i], l.entries[l.order[i]])
  {
    var p := Listed(l);
    forall i, j | 0 <= i < j < |p| ensures p[i].0 != p[j].0 {
      assert p[i].0 == l.order[i] && p[j].0 == l.order[j];
    }
  }

  /** Decoding a listing gives back the log it lists. */
  lemma DecodedListed(l: Log)
    requires WellFormed(l)
    ensures DistinctLabels(Listed(l)) && Decoded(Listed(l)) == l
  {
    var p := Listed(l);
    ListedLabels(l);
    var d := Decoded(p);
    assert d.order == l.order;
    forall k | k in l.entries ensures k in d.entries && d.entries[k] == l.entries[k] {
      var i :| 0 <= i < |l.order| && l.order[i] == k;
      assert p[i] == (k, l.entries[k]);
    }
    assert d.entries.Keys == l.entries.Keys;
  }

  /** Saving a changelog and loading the file gives the same labels with the same lists. */
  lemma SaveLoadRoundTrip(le: (string, string) -> bool, l: Log)
    requires WellFormed(l)
    ensures var saved := SortOp(le, l);
      DistinctLabels(Listed(saved)) && Decoded(Listed(saved)) == saved && saved.entries == l.entries
  {
    DecodedListed(SortOp(le, l));
  }

  /** Sorting an already sorted changelog changes nothing. */
  lemma SortIdempotent(le: (string, string) -> bool, l: Log)
    requires WellFormed(l) && TotalPreorder(le)
    ensures SortOp(le, SortOp(le, l)) == SortOp(le, l)
  {
    var keys := SortOp(le, l).order;
    var others := RSort(le, Remove(l.order, Develop));
    assert keys == (if Develop in l.order then [Develop] else []) + others;
    RSortDescending(le, Remove(l.order, Develop));
    assert Develop !in others;
    assert Remove(keys, Develop) == others by {
      if Develop in l.order {
        assert keys[1..] == others;
      }
    }
    RSortOfDescending(le, others);
  }

  /** Once "develop" has been tagged, tagging again only warns and changes nothing. */
  lemma TagTwiceWarns(validVersion: string -> bool, l: Log, v: string, w: string)
    requires WellFormed(l)
    requires TagOp(validVersion, l, v).status == Done
    ensures var once := TagOp(validVersion, l, v).log;
      TagOp(validVersion, once, w) == Step(NoDevelop, once)
  {
  }

  /**
    The key-wise union in `tag`: a label that already holds ["x"] keeps exactly
    ["x"] when "develop" holds ["c"].
   */
  lemma TagIntoExistingLabel(validVersion: string -> bool)
    ensures var l := Log(map["1.2.0" := ["x"], Develop := ["c"]], ["1.2.0", Develop]);
      WellFormed(l) && TagOp(validVersion, l, "1.2.0") == Step(Done, Log(map["1.2.0" := ["x"]], ["1.2.0"]))
  {
    var l := Log(map["1.2.0" := ["x"], Develop := ["c"]], ["1.2.0", Develop]);
    assert "1.2.0" != Develop;
    var r := TagOp(validVersion, l, "1.2.0");
    assert r.log.entries == map["1.2.0" := ["x"]];
    assert Remove([Develop], Develop) == [];
    assert Remove(l.order, Develop) == ["1.2.0"] + Remove([Develop], Develop);
  }

  /** Tagging "develop" itself deletes the pending changes. */
  lemma TagDevelopDiscards(validVersion: string -> bool, l: Log)
    requires WellFormed(l) && Develop in l.entries
    ensures TagOp(validVersion, l, Develop) == Step(Done, Log(l.entries - {Develop}, Remove(l.order, Develop)))
  {
    assert l.entries[Develop := ListUnion(l.entries[Develop], l.entries[Develop])] == l.entries;
  }

  /**
    The store. `validVersion` stands for Composer's `VersionParser::normalize`
    accepting a label, `versionLe` for Composer's version comparison; both are
    injected, as the PHP constructor injects the parser and the comparator.
   */
  class Changelog {
    const validVersion: string -> bool
    const versionLe: (string, string) -> bool
    var entries: map<string, seq<string>>
    var order: seq<string>

    function Snapshot(): Log
      reads this
    {
      Log(entries, order)
    }

    ghost predicate Valid()
      reads this
    {
      WellFormed(Snapshot()) && TotalPreorder(versionLe)
    }

    /** A new store holds no labels. */
    constructor (validVersion: string -> bool, versionLe: (string, string) -> bool)
      requires TotalPreorder(versionLe)
      ensures Valid() && Snapshot() == Log(map[], [])
      ensures this.validVersion == validVersion && this.versionLe == versionLe
    {
      this.validVersion := validVersion;
      this.versionLe := versionLe;
      entries := map[];
      order := [];
    }

    /** `load`: replaces the contents with the decoded changelog file. */
    method Load(contents: Listing)
      requires Valid() && DistinctLabels(contents)
      modifies this
      ensures Valid() && Snapshot() == Decoded(contents)
    {
      var l := Decoded(contents);
      entries, order := l.entries, l.order;
    }

    /** `hasDevelop`. */
    function HasDevelop(): (b: bool)
      reads this
      requires Valid()
      ensures b <==> Develop in order
    {
      Develop in entries
    }

    /** The private `addVersion`. */
    method AddVersion(v: string) returns (st: Status)
      requires Valid()
      modifies this
      ensures Valid()
      ensures Step(st, Snapshot()) == AddVersionOp(validVersion, old(Snapshot()), v)
    {
      if v !in entries {
        if v != Develop && !validVersion(v) {
          return InvalidVersion(v);
        }
        entries := entries[v := []];
        order := order + [v];
      }
      st := Done;
    }

    /** `add`: the change becomes the last one of label `v`. */
    method Add(change: string, v: string) returns (st: Status)
      requires Valid()
      modifies this
      ensures Valid()
      ensures Step(st, Snapshot()) == AddOp(validVersion, old(Snapshot()), change, v)
    {
      st := AddVersion(v);
      if st == Done {
        entries := entries[v := entries[v] + [change]];
      }
    }

    /** `tag`: the warning logged when there is nothing to tag is the status `NoDevelop`. */
    method Tag(v: string) returns (st: Status)
      requires Valid()
      modifies this
      ensures Valid()
      ensures Step(st, Snapshot()) == TagOp(validVersion, old(Snapshot()), v)
    {
      if !HasDevelop() {
        return NoDevelop;
      }
      st := AddVersion(v);
      if st != Done {
        return;
      }
      entries := entries[v := ListUnion(entries[v], entries[Develop])];
      entries := entries - {Develop};
      order := Remove(order, Develop);
    }

    /** The private `sort`. */
    method Sort()
      requires Valid()
      modifies this
      ensures Valid()
      ensures Snapshot() == SortOp(versionLe, old(Snapshot()))
    {
      order := SortedKeys(versionLe, order);
    }

    /** `changelog()`: sorts the store, then lists it. */
    method Contents() returns (listing: Listing)
      requires Valid()
      modifies this
      ensures Valid()
      ensures Snapshot() == SortOp(versionLe, old(Snapshot()))
      ensures listing == Listed(Snapshot())
    {
      Sort();
      listing := Listed(Snapshot());
    }

    /** `save`: sorts the store and hands the listing over to be encoded and written. */
    method Save() returns (written: Listing)
      requires Valid()
      modifies this
      ensures Valid()
      ensures Snapshot() == SortOp(versionLe, old(Snapshot()))
      ensures written == Listed(Snapshot())
    {
      Sort();
      written := Listed(Snapshot());
    }
  }
}
