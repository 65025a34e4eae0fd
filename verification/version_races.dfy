/** Status changes of model versions whose requests overlap. A request reads which version is active in one
    statement and writes two rows when it commits; nothing is locked in between. */
module VersionRaces {
  import opened Collections
  import opened Learning

  /** What a request has read: the version it is about, and the active version it found. */
  datatype Loaded = Loaded(id: VersionId, previous: Option<VersionId>)

  datatype World = World(versions: Versions, open: map<int, Loaded>)

  datatype Event =
    | Created(id: VersionId, org: OrgId)
    | Reads(reader: int, about: VersionId, found: Option<VersionId>)
    | Commits(writer: int, request: Request, now: int)

  /** What the unordered query for the active version may return. */
  predicate MayFind(versions: Versions, org: OrgId, found: Option<VersionId>) {
    match found
    case None => ActiveVersions(versions, org) == {}
    case Some(id) => id in ActiveVersions(versions, org)
  }

  function Written(versions: Versions, loaded: Loaded, request: Request, now: int): Versions
    requires loaded.id in versions
  {
    Demoted(versions, loaded.previous, loaded.id, request.status)[loaded.id := WithStatus(versions[loaded.id], request, now)]
  }

  function Happen(w: World, e: Event): World {
    match e
    case Created(id, org) =>
      if id in w.versions then w else w.(versions := w.versions[id := Version(org, Candidate, None, None, None, "")])
    case Reads(reader, about, found) =>
      if about in w.versions && MayFind(w.versions, w.versions[about].org, found)
      then w.(open := w.open[reader := Loaded(about, found)])
      else w
    case Commits(writer, request, now) =>
      if writer in w.open && w.open[writer].id in w.versions
      then World(Written(w.versions, w.open[writer], request, now), w.open - {writer})
      else w
  }

  function After(events: seq<Event>): World {
    if events == [] then World(map[], map[]) else Happen(After(events[..|events| - 1]), events[|events| - 1])
  }

  /** Whatever a request has loaded exists, and what it found is of the same organization. */
  ghost predicate Sound(w: World) {
    forall r :: r in w.open ==>
      && w.open[r].id in w.versions
      && (w.open[r].previous.Some? ==>
            w.open[r].previous.value in w.versions && w.versions[w.open[r].previous.value].org == w.versions[w.open[r].id].org)
  }

  lemma {:induction false} AlwaysSound(events: seq<Event>)
    ensures Sound(After(events))
  {
    if events != [] {
      AlwaysSound(events[..|events| - 1]);
    }
  }

  /** A request that nobody interleaves with is one atomic status change. */
  lemma UndisturbedIsAtomic(w: World, reader: int, id: VersionId, found: Option<VersionId>, request: Request, now: int)
    requires id in w.versions && MayFind(w.versions, w.versions[id].org, found)
    ensures StatusSet(w.versions, w.versions[id].org, id, request, now,
                      Happen(Happen(w, Reads(reader, id, found)), Commits(reader, request, now)).versions)
  {
  }

  lemma CommitChangesActive(w: World, writer: int, request: Request, now: int, org: OrgId)
    requires Sound(w) && writer in w.open
    ensures var loaded := w.open[writer];
      var after := ActiveVersions(Happen(w, Commits(writer, request, now)).versions, org);
      var before := ActiveVersions(w.versions, org);
      after ==
        if w.versions[loaded.id].org != org then before
        else if !request.status.Active? then before - {loaded.id}
        else before - (if loaded.previous.Some? then {loaded.previous.value} else {}) + {loaded.id}
  {
  }

  /** Everything active is what the request activates or what it had found to be active. */
  ghost predicate FoundAll(w: World, writer: int)
    requires writer in w.open && w.open[writer].id in w.versions
  {
    var loaded := w.open[writer];
    forall v :: v in ActiveVersions(w.versions, w.versions[loaded.id].org) ==> v == loaded.id || loaded.previous == Some(v)
  }

  lemma AtMostOne<T>(s: set<T>, x: T)
    requires x in s
    ensures |s| <= 1 <==> s == {x}
  {
    if |s| <= 1 {
      SubsetCardinality({x}, s);
    }
  }

  /** A committed activation leaves at most one version of its organization active if and only if every version
      active at that moment is the activated one or the one that had been found. */
  lemma ActivationKeepsSingleIff(w: World, writer: int, request: Request, now: int)
    requires Sound(w) && writer in w.open && request.status.Active?
    ensures var org := w.versions[w.open[writer].id].org;
      |ActiveVersions(Happen(w, Commits(writer, request, now)).versions, org)| <= 1 <==> FoundAll(w, writer)
  {
    var loaded := w.open[writer];
    var org := w.versions[loaded.id].org;
    CommitChangesActive(w, writer, request, now, org);
    AtMostOne(ActiveVersions(Happen(w, Commits(writer, request, now)).versions, org), loaded.id);
    hide Happen;
    var before, after := ActiveVersions(w.versions, org), ActiveVersions(Happen(w, Commits(writer, request, now)).versions, org);
    if after == {loaded.id} {
      forall v | v in before ensures v == loaded.id || loaded.previous == Some(v) {
        assert v in after || loaded.previous == Some(v);
      }
    }
    if FoundAll(w, writer) {
      forall v | v in after ensures v == loaded.id {
        assert v in before || v == loaded.id;
      }
      assert after == {loaded.id};
    }
  }

  ghost predicate SingleActive(versions: Versions) {
    forall org :: |ActiveVersions(versions, org)| <= 1
  }

  /** At most one version of each organization was active at every moment of the run. */
  ghost predicate AlwaysSingle(events: seq<Event>) {
    SingleActive(After(events).versions) && (events != [] ==> AlwaysSingle(events[..|events| - 1]))
  }

  /** Every activation of the run had found everything that was active when it committed. */
  ghost predicate Guarded(events: seq<Event>) {
    events == [] ||
    (var w := After(events[..|events| - 1]);
     var last := events[|events| - 1];
     && Guarded(events[..|events| - 1])
     && (last.Commits? && last.request.status.Active? && last.writer in w.open && w.open[last.writer].id in w.versions ==>
           FoundAll(w, last.writer)))
  }

  lemma EventKeepsSingleIff(w: World, e: Event)
    requires Sound(w) && SingleActive(w.versions)
    ensures SingleActive(Happen(w, e).versions) <==>
      (e.Commits? && e.request.status.Active? && e.writer in w.open ==> FoundAll(w, e.writer))
  {
    if e.Commits? && e.writer in w.open {
      forall org ensures
        var before, after := ActiveVersions(w.versions, org), ActiveVersions(Happen(w, e).versions, org);
        org != w.versions[w.open[e.writer].id].org || !e.request.status.Active? ==> |after| <= |before|
      {
        CommitChangesActive(w, e.writer, e.request, e.now, org);
        if !e.request.status.Active? {
          SubsetCardinality(ActiveVersions(Happen(w, e).versions, org), ActiveVersions(w.versions, org));
        }
      }
      hide Happen, ActiveVersions;
      if e.request.status.Active? {
        ActivationKeepsSingleIff(w, e.writer, e.request, e.now);
      }
    } else {
      forall org ensures ActiveVersions(Happen(w, e).versions, org) == ActiveVersions(w.versions, org) {
      }
      hide Happen, ActiveVersions;
    }
  }

  /** Over whole runs: at most one version was active throughout if and only if no activation missed one. */
  lemma {:induction false} AlwaysSingleIffGuarded(events: seq<Event>)
    ensures AlwaysSingle(events) <==> Guarded(events)
  {
    if events == [] {
      forall org ensures ActiveVersions(After(events).versions, org) == {} {
      }
    } else {
      var earlier := events[..|events| - 1];
      AlwaysSingleIffGuarded(earlier);
      AlwaysSound(earlier);
      if AlwaysSingle(earlier) {
        EventKeepsSingleIff(After(earlier), events[|events| - 1]);
      }
      hide Happen, SingleActive, FoundAll;
    }
  }

  lemma AfterNext(events: seq<Event>, e: Event)
    ensures After(events + [e]) == Happen(After(events), e)
  {
    assert (events + [e])[..|events|] == events;
  }

  const ACTIVATE := Request(Active, None, None)

  /** Two candidates are activated by requests that both find nothing active. */
  function Overlapping(): seq<Event> {
    [Created(1, 0)] + [Created(2, 0)] + [Reads(1, 1, None)] + [Reads(2, 2, None)] + [Commits(1, ACTIVATE, 5)] + [Commits(2, ACTIVATE, 6)]
  }

  lemma TwoActive()
    ensures ActiveVersions(After(Overlapping()).versions, 0) == {1, 2}
    ensures !AlwaysSingle(Overlapping())
  {
    var e1 := [Created(1, 0)];
    var e2 := e1 + [Created(2, 0)];
    var e3 := e2 + [Reads(1, 1, None)];
    var e4 := e3 + [Reads(2, 2, None)];
    var e5 := e4 + [Commits(1, ACTIVATE, 5)];
    assert [] + e1 == e1 && After([]) == World(map[], map[]);
    hide After;
    AfterNext([], Created(1, 0));
    AfterNext(e1, Created(2, 0));
    assert ActiveVersions(After(e2).versions, 0) == {};
    AfterNext(e2, Reads(1, 1, None));
    AfterNext(e3, Reads(2, 2, None));
    AfterNext(e4, Commits(1, ACTIVATE, 5));
    AfterNext(e5, Commits(2, ACTIVATE, 6));
    assert |{1, 2}| == 2;
  }
}
