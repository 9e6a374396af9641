/**
  The non-interactive course of the `tag` command: validate the bump type,
  compute and render the next version, tag the loaded changelog's pending
  changes with it, add the changes entered at the prompt, save the changelog
  and produce the new `.semver` document.
 */
module TagVersion {
  import opened Wrappers
  import opened VersionSort
  import opened ChangelogStore
  import opened VersionBumper

  datatype Error = InvalidType(typeArg: string) | InvalidLabel(version: string)

  /** What the command leaves behind: the saved changelog and the `.semver` text, or the error it stopped with. */
  datatype Outcome = Released(changelog: Listing, semverFile: string) | Aborted(error: Error)

  /** The list a label holds, empty for a label not yet present. */
  function Prior(l: Log, v: string): seq<string> {
    if v in l.entries then l.entries[v] else []
  }

  /** `r` is `l` with `changes` appended to the list of `v`, created if need be; nothing else differs. */
  ghost predicate AppendedUnder(l: Log, r: Log, v: string, changes: seq<string>) {
    && r.entries.Keys == l.entries.Keys + {v}
    && v in r.entries && r.entries[v] == Prior(l, v) + changes
    && (forall k :: k in l.entries && k != v ==> r.entries[k] == l.entries[k])
    && r.order == (if v in l.entries then l.order else l.order + [v])
  }

  /** Appending `a`, then `b`, appends `a + b`. */
  lemma AppendedUnderTwice(l: Log, m: Log, r: Log, v: string, a: seq<string>, b: seq<string>)
    requires AppendedUnder(l, m, v, a) && AppendedUnder(m, r, v, b)
    ensures AppendedUnder(l, r, v, a + b)
  {
    assert Prior(m, v) == Prior(l, v) + a;
    assert r.entries[v] == Prior(l, v) + (a + b);
  }

  /**
    The changes entered at the prompt, each added under `v` in turn. Only the
    first add can be rejected: after it, `v` is present and is not validated again.
   */
  function AddAll(validVersion: string -> bool, l: Log, changes: seq<string>, v: string): (r: Step)
    requires WellFormed(l)
    ensures WellFormed(r.log)
    ensures r.status == Done || r.status == InvalidVersion(v)
    ensures r.status == InvalidVersion(v) <==>
      changes != [] && v !in l.entries && v != Develop && !validVersion(v)
    ensures r.status != Done || changes == [] ==> r.log == l
    ensures r.status == Done && changes != [] ==> AppendedUnder(l, r.log, v, changes)
    decreases |changes|
  {
    if changes == [] then Step(Done, l)
    else
      var s := AddOp(validVersion, l, changes[0], v);
      if s.status != Done then s
      else
        var r := AddAll(validVersion, s.log, changes[1..], v);
        assert AppendedUnder(l, s.log, v, [changes[0]]);
        assert changes == [changes[0]] + changes[1..];
        if changes[1..] == [] then r
        else
          AppendedUnderTwice(l, s.log, r.log, v, [changes[0]], changes[1..]);
          r
  }

  /**
    The whole command as a function of its inputs, with the prompt's answers
    given in advance: the changelog as loaded from its file, the current
    `.semver` record, the type argument, the `--no-changes`, `--pre` and
    `--meta` options, and the answers entered at the prompt.
   */
  function Release(validVersion: string -> bool, le: (string, string) -> bool, loaded: Listing,
                   current: VersionRecord, typeArg: string, noChanges: bool,
                   pre: Option<string>, meta: Option<string>, answers: seq<string>): Outcome
    requires DistinctLabels(loaded)
  {
    match ValidateType(typeArg)
    case None => Aborted(InvalidType(typeArg))
    case Some(t) =>
      Publish(validVersion, le, loaded, TargetVersion(current, t, pre, meta), if noChanges then [] else answers)
  }

  /**
    Everything after the type check: tag the loaded changelog with the dotted
    form of `version`, sort it for display, add `changes` under that label,
    then save the changelog and render the `.semver` document.
   */
  function Publish(validVersion: string -> bool, le: (string, string) -> bool, loaded: Listing,
                   version: VersionRecord, changes: seq<string>): Outcome
    requires DistinctLabels(loaded)
  {
    var dotted := Dotted(version);
    var tagged := TagOp(validVersion, Decoded(loaded), dotted);
    if tagged.status.InvalidVersion? then Aborted(InvalidLabel(dotted))
    else
      var shown := SortOp(le, tagged.log);
      var added := AddAll(validVersion, shown, changes, dotted);
      if added.status.InvalidVersion? then Aborted(InvalidLabel(dotted))
      else Released(Listed(SortOp(le, added.log)), SemverDocument(version))
  }

  /** The prompt loop of `handle`: each answer is added under `v`; a rejected add stops it. */
  method AddChanges(store: Changelog, changes: seq<string>, v: string) returns (st: Status)
    requires store.Valid()
    modifies store
    ensures store.Valid()
    ensures Step(st, store.Snapshot()) == AddAll(store.validVersion, old(store.Snapshot()), changes, v)
  {
    ghost var start := store.Snapshot();
    st := Done;
    var i := 0;
    while i < |changes|
      invariant 0 <= i <= |changes|
      invariant store.Valid()
      invariant AddAll(store.validVersion, store.Snapshot(), changes[i..], v)
             == AddAll(store.validVersion, start, changes, v)
      invariant st == Done
      decreases |changes| - i
    {
      assert changes[i..][1..] == changes[i + 1..];
      st := store.Add(changes[i], v);
      if st != Done {
        return;
      }
      i := i + 1;
    }
  }

  /** `handle`, with the prompt's answers given in advance and the console output left out. */
  method Handle(store: Changelog, loaded: Listing, current: VersionRecord, typeArg: string,
                noChanges: bool, pre: Option<string>, meta: Option<string>, answers: seq<string>)
    returns (o: Outcome)
    requires store.Valid() && DistinctLabels(loaded)
    modifies store
    ensures store.Valid()
    ensures o == Release(store.validVersion, store.versionLe, loaded, current, typeArg, noChanges, pre, meta, answers)
    ensures o.Released? ==> o.changelog == Listed(store.Snapshot())
    ensures ValidateType(typeArg).None? ==> store.Snapshot() == old(store.Snapshot())
  {
    var t := ValidateType(typeArg);
    if t.None? {
      return Aborted(InvalidType(typeArg));
    }
    var version := TargetVersion(current, t.value, pre, meta);
    var dotted := Dotted(version);
    store.Load(loaded);
    var st := store.Tag(dotted);
    if st.InvalidVersion? {
      return Aborted(InvalidLabel(dotted));
    }
    var shown := store.Contents();
    st := AddChanges(store, if noChanges then [] else answers, dotted);
    if st.InvalidVersion? {
      return Aborted(InvalidLabel(dotted));
    }
    var saved := store.Save();
    o := Released(saved, SemverDocument(version));
  }

  /** An unknown type argument stops the command before anything else is done. */
  lemma UnknownTypeRejected(validVersion: string -> bool, le: (string, string) -> bool, loaded: Listing,
                            current: VersionRecord, typeArg: string, noChanges: bool,
                            pre: Option<string>, meta: Option<string>, answers: seq<string>)
    requires DistinctLabels(loaded) && typeArg !in AllowedTypes
    ensures Release(validVersion, le, loaded, current, typeArg, noChanges, pre, meta, answers)
         == Aborted(InvalidType(typeArg))
  {
  }

  /**
    With `--no-changes`, the saved changelog is the loaded one tagged with the
    new dotted version and sorted once.
   */
  lemma NoChangesSavesSortedTag(validVersion: string -> bool, le: (string, string) -> bool, loaded: Listing,
                                current: VersionRecord, t: BumpType,
                                pre: Option<string>, meta: Option<string>, answers: seq<string>)
    requires DistinctLabels(loaded) && TotalPreorder(le)
    requires var dotted := Dotted(TargetVersion(current, t, pre, meta));
      !TagOp(validVersion, Decoded(loaded), dotted).status.InvalidVersion?
    ensures var version := TargetVersion(current, t, pre, meta);
      var tagged := TagOp(validVersion, Decoded(loaded), Dotted(version));
      Release(validVersion, le, loaded, current, TypeName(t), true, pre, meta, answers)
        == Released(Listed(SortOp(le, tagged.log)), SemverDocument(version))
  {
    var version := TargetVersion(current, t, pre, meta);
    var tagged := TagOp(validVersion, Decoded(loaded), Dotted(version));
    var shown := SortOp(le, tagged.log);
    ReleaseOfType(validVersion, le, loaded, current, t, true, pre, meta, answers);
    assert AddAll(validVersion, shown, [], Dotted(version)) == Step(Done, shown);
    SortIdempotent(le, tagged.log);
  }

  /** Answers added under a label already present are all appended. */
  lemma AddAllToPresentLabel(validVersion: string -> bool, l: Log, answers: seq<string>, v: string)
    requires WellFormed(l) && v in l.entries
    ensures var added := AddAll(validVersion, l, answers, v);
      && added.status == Done
      && added.log.entries.Keys == l.entries.Keys
      && added.log.entries[v] == l.entries[v] + answers
      && (forall k :: k in l.entries && k != v ==> added.log.entries[k] == l.entries[k])
  {
  }

  /** Tagging, then sorting for display, folds the pending changes into the new label. */
  lemma TagThenSort(validVersion: string -> bool, le: (string, string) -> bool, l: Log, dotted: string)
    requires WellFormed(l) && Develop in l.entries && dotted != Develop
    requires dotted in l.entries || validVersion(dotted)
    ensures var tagged := TagOp(validVersion, l, dotted);
      var shown := SortOp(le, tagged.log).entries;
      && tagged.status == Done
      && shown.Keys == (l.entries.Keys + {dotted}) - {Develop}
      && shown[dotted] == ListUnion(Prior(l, dotted), l.entries[Develop])
      && (forall k :: k in l.entries && k != dotted && k != Develop ==> shown[k] == l.entries[k])
  {
  }

  /** Tagging, listing, adding the answers and saving, on the labels and lists. */
  lemma FoldDevelopSteps(validVersion: string -> bool, le: (string, string) -> bool, l: Log,
                         dotted: string, answers: seq<string>)
    requires WellFormed(l) && Develop in l.entries && dotted != Develop
    requires dotted in l.entries || validVersion(dotted)
    ensures var tagged := TagOp(validVersion, l, dotted);
      var added := AddAll(validVersion, SortOp(le, tagged.log), answers, dotted);
      var final := SortOp(le, added.log).entries;
      && tagged.status == Done && added.status == Done
      && final.Keys == (l.entries.Keys + {dotted}) - {Develop}
      && Develop !in final && dotted in final
      && final[dotted] == ListUnion(Prior(l, dotted), l.entries[Develop]) + answers
      && (forall k :: k in l.entries && k != dotted && k != Develop ==> k in final && final[k] == l.entries[k])
  {
    TagThenSort(validVersion, le, l, dotted);
    var shown := SortOp(le, TagOp(validVersion, l, dotted).log);
    AddAllToPresentLabel(validVersion, shown, answers, dotted);
  }

  /** With pending changes and an accepted version, `Publish` saves the sorted result of the adds. */
  lemma PublishSucceeds(validVersion: string -> bool, le: (string, string) -> bool, loaded: Listing,
                        version: VersionRecord, answers: seq<string>)
    requires DistinctLabels(loaded)
    requires var l := Decoded(loaded);
      Develop in l.entries && (Dotted(version) in l.entries || validVersion(Dotted(version)))
    ensures var dotted := Dotted(version);
      var tagged := TagOp(validVersion, Decoded(loaded), dotted);
      var added := AddAll(validVersion, SortOp(le, tagged.log), answers, dotted);
      && dotted != Develop && tagged.status == Done && added.status == Done
      && Publish(validVersion, le, loaded, version, answers)
           == Released(Listed(SortOp(le, added.log)), SemverDocument(version))
  {
    var l := Decoded(loaded);
    var dotted := Dotted(version);
    DottedStartsWithDigit(version);
    assert dotted != Develop by {
      assert Develop[0] == 'd';
    }
    FoldDevelopSteps(validVersion, le, l, dotted, answers);
  }

  /**
    When the loaded changelog has pending changes and the new version is
    accepted, the command succeeds: "develop" is gone, and the new version
    holds the union of what it held and the pending changes, followed by the
    changes entered at the prompt.
   */
  lemma ReleaseFoldsDevelop(validVersion: string -> bool, le: (string, string) -> bool, loaded: Listing,
                            version: VersionRecord, answers: seq<string>)
    requires DistinctLabels(loaded)
    requires var l := Decoded(loaded);
      Develop in l.entries && (Dotted(version) in l.entries || validVersion(Dotted(version)))
    ensures var l := Decoded(loaded);
      var dotted := Dotted(version);
      var o := Publish(validVersion, le, loaded, version, answers);
      && o.Released?
      && o.semverFile == SemverDocument(version)
      && DistinctLabels(o.changelog)
      && var saved := Decoded(o.changelog).entries;
      && saved.Keys == (l.entries.Keys + {dotted}) - {Develop}
      && Develop !in saved
      && dotted in saved
      && saved[dotted] == ListUnion(Prior(l, dotted), l.entries[Develop]) + answers
      && (forall k :: k in l.entries && k != dotted && k != Develop ==> k in saved && saved[k] == l.entries[k])
  {
    var l := Decoded(loaded);
    var dotted := Dotted(version);
    PublishSucceeds(validVersion, le, loaded, version, answers);
    FoldDevelopSteps(validVersion, le, l, dotted, answers);
    var tagged := TagOp(validVersion, l, dotted);
    var added := AddAll(validVersion, SortOp(le, tagged.log), answers, dotted);
    var final := SortOp(le, added.log);
    DecodedListed(final);
  }

  /** A successful run writes the `.semver` document of the version it tagged. */
  lemma PublishWritesVersion(validVersion: string -> bool, le: (string, string) -> bool, loaded: Listing,
                             version: VersionRecord, changes: seq<string>)
    requires DistinctLabels(loaded)
    requires '\n' !in version.special && '\n' !in version.metadata
    ensures var o := Publish(validVersion, le, loaded, version, changes);
      o.Released? ==> ReadSemverDocument(o.semverFile) == Some(version)
  {
    SemverDocumentRoundTrip(version);
  }

  /** A recognised type argument leads straight to publishing its target version. */
  lemma ReleaseOfType(validVersion: string -> bool, le: (string, string) -> bool, loaded: Listing,
                      current: VersionRecord, t: BumpType, noChanges: bool,
                      pre: Option<string>, meta: Option<string>, answers: seq<string>)
    requires DistinctLabels(loaded)
    ensures Release(validVersion, le, loaded, current, TypeName(t), noChanges, pre, meta, answers)
         == Publish(validVersion, le, loaded, TargetVersion(current, t, pre, meta),
                    if noChanges then [] else answers)
  {
    assert ValidateType(TypeName(t)) == Some(t);
  }

  /** The `.semver` document the command writes reads back as the new version. */
  lemma ReleaseWritesTarget(validVersion: string -> bool, le: (string, string) -> bool, loaded: Listing,
                            current: VersionRecord, t: BumpType, noChanges: bool,
                            pre: Option<string>, meta: Option<string>, answers: seq<string>)
    requires DistinctLabels(loaded)
    requires '\n' !in OrEmpty(pre) && '\n' !in OrEmpty(meta)
    ensures var o := Release(validVersion, le, loaded, current, TypeName(t), noChanges, pre, meta, answers);
      o.Released? ==> ReadSemverDocument(o.semverFile) == Some(TargetVersion(current, t, pre, meta))
  {
    var version := TargetVersion(current, t, pre, meta);
    TargetVersionSingleLine(current, t, pre, meta);
    ReleaseOfType(validVersion, le, loaded, current, t, noChanges, pre, meta, answers);
    PublishWritesVersion(validVersion, le, loaded, version, if noChanges then [] else answers);
  }
}
