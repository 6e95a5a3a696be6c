/**
 * The six-degrees search: a breadth-first search over the implicit graph in
 * which a player is linked to every film in their credits and a film to
 * every player in its cast. The queue holds partial paths; one set of films
 * and one set of players, global to the search, keep any film's cast from
 * being fetched twice and any player from ending two paths. Paths of six
 * hops are never extended. The start player is not put in the seen set, so
 * a path may come back to it.
 *
 * The index is seen through two total functions, the credits of a player
 * and the cast of a film: a lookup that finds nothing yields an empty list.
 */
module SixDegrees {
  import opened Wrappers
  import CStrings
  import opened Imdb

  type Name = seq<CStrings.byte>

  const MaxDegree: nat := 6

  datatype Hop = Hop(film: Film, player: Name)

  /** A start player followed by (film, co-star) hops. */
  datatype Path = Path(start: Name, hops: seq<Hop>)
  {
    /** The player hop `i` leaves from. */
    function PlayerBefore(i: nat): Name
      requires i <= |hops|
    {
      if i == 0 then start else hops[i - 1].player
    }

    function LastPlayer(): Name
    {
      PlayerBefore(|hops|)
    }

    function AddConnection(film: Film, player: Name): Path
    {
      Path(start, hops + [Hop(film, player)])
    }
  }

  datatype Graph = Graph(credits: Name -> seq<Film>, cast: Film -> seq<Name>)

  /** Every hop's film is in the credits of the player before it, and its player is in that film's cast. */
  ghost predicate ValidPath(g: Graph, p: Path)
  {
    forall i {:trigger p.PlayerBefore(i)} :: 0 <= i < |p.hops| ==>
      p.hops[i].film in g.credits(p.PlayerBefore(i)) && p.hops[i].player in g.cast(p.hops[i].film)
  }

  ghost predicate Connects(g: Graph, p: Path, from: Name, to: Name)
  {
    p.start == from && p.LastPlayer() == to && ValidPath(g, p)
  }

  /** No chain of at most `n` hops leads from `from` to `to`. */
  ghost predicate NoPathWithin(g: Graph, from: Name, to: Name, n: nat)
  {
    forall p :: Connects(g, p, from, to) ==> |p.hops| > n
  }

  lemma AddConnectionValid(g: Graph, p: Path, film: Film, player: Name)
    requires ValidPath(g, p)
    requires film in g.credits(p.LastPlayer()) && player in g.cast(film)
    ensures ValidPath(g, p.AddConnection(film, player))
    ensures p.AddConnection(film, player).LastPlayer() == player
    ensures |p.AddConnection(film, player).hops| == |p.hops| + 1
  {
    var q := p.AddConnection(film, player);
    forall i | 0 <= i < |q.hops|
      ensures q.hops[i].film in g.credits(q.PlayerBefore(i)) && q.hops[i].player in g.cast(q.hops[i].film)
    {
      if i < |p.hops| {
        assert q.hops[i] == p.hops[i] && q.PlayerBefore(i) == p.PlayerBefore(i);
      }
    }
  }

  // ---------------------------------------------------------------------
  // Proof bookkeeping: the level at which each player and film was first
  // reached, the players whose films have all been looked at, and the films
  // whose cast has been looked at in full.

  datatype Levels = Levels(expanded: set<Name>, doneFilms: set<Film>,
                           actorLevel: map<Name, nat>, filmLevel: map<Film, nat>)

  /**
   * Closure of what has been explored: each film of an expanded player has
   * been looked at, no later than the player's level; each player in the
   * cast of such a film has been reached at most one level after it.
   */
  ghost predicate Closed(g: Graph, lv: Levels)
  {
    && (forall a :: a in lv.expanded ==> CreditsLookedAt(g, lv, a))
    && (forall f :: f in lv.doneFilms ==> CastReached(g, lv, f))
  }

  /** Each film of player `a` has been looked at, no later than `a`'s level. */
  ghost predicate CreditsLookedAt(g: Graph, lv: Levels, a: Name)
  {
    a in lv.actorLevel &&
    forall f :: f in g.credits(a) ==>
      f in lv.doneFilms && f in lv.filmLevel && lv.filmLevel[f] <= lv.actorLevel[a]
  }

  /** Each player in the cast of film `f` has been reached at most one level after it. */
  ghost predicate CastReached(g: Graph, lv: Levels, f: Film)
  {
    f in lv.filmLevel &&
    forall b :: b in g.cast(f) ==> b in lv.actorLevel && lv.actorLevel[b] <= lv.filmLevel[f] + 1
  }

  /** Every player reached below `level` has been expanded. */
  ghost predicate BelowExpanded(actorLevel: map<Name, nat>, expanded: set<Name>, level: nat)
  {
    forall a :: a in actorLevel && actorLevel[a] < level ==> a in expanded
  }

  /**
   * The queue holds valid paths from `start`, of `level` or `level + 1`
   * hops, shortest first; each ends in a reached player, at that player's
   * level unless it is the start player come back.
   */
  ghost predicate QueueOk(g: Graph, start: Name, queue: seq<Path>, actorLevel: map<Name, nat>, level: nat)
  {
    && (forall i :: 0 <= i < |queue| ==>
          && queue[i].start == start && ValidPath(g, queue[i])
          && level <= |queue[i].hops| <= level + 1
          && queue[i].LastPlayer() in actorLevel
          && (queue[i].LastPlayer() == start || actorLevel[queue[i].LastPlayer()] == |queue[i].hops|))
    && (forall i, j :: 0 <= i <= j < |queue| ==> |queue[i].hops| <= |queue[j].hops|)
  }

  /** Every reached player not yet expanded (other than `pending`) ends a queued path of its level. */
  ghost predicate Tracked(queue: seq<Path>, actorLevel: map<Name, nat>, expanded: set<Name>, pending: set<Name>)
  {
    forall a :: a in actorLevel && a !in expanded && a !in pending ==>
      exists i :: 0 <= i < |queue| && queue[i].LastPlayer() == a && |queue[i].hops| == actorLevel[a]
  }

  ghost predicate LevelsBelow(actorLevel: map<Name, nat>, filmLevel: map<Film, nat>, level: nat)
  {
    && (forall a :: a in actorLevel ==> actorLevel[a] <= level + 1)
    && (forall f :: f in filmLevel ==> filmLevel[f] <= level)
  }

  ghost predicate SeenSets(start: Name, dest: Name, seenActors: set<Name>, seenFilms: set<Film>, lv: Levels)
  {
    && dest !in seenActors
    && lv.actorLevel.Keys == seenActors + {start} && lv.actorLevel[start] == 0
    && lv.filmLevel.Keys == seenFilms && lv.doneFilms <= seenFilms
    && lv.expanded <= lv.actorLevel.Keys
  }

  /** The invariant of the outer loop of the search. */
  ghost predicate Searching(g: Graph, start: Name, dest: Name, queue: seq<Path>,
                            seenActors: set<Name>, seenFilms: set<Film>, lv: Levels, level: nat)
  {
    && SeenSets(start, dest, seenActors, seenFilms, lv)
    && lv.doneFilms == seenFilms
    && LevelsBelow(lv.actorLevel, lv.filmLevel, level)
    && QueueOk(g, start, queue, lv.actorLevel, level)
    && Tracked(queue, lv.actorLevel, lv.expanded, {})
    && Closed(g, lv)
    && (start in lv.expanded || queue == [Path(start, [])])
  }

  /** The invariant while the last player of `firstPath` is being expanded. */
  ghost predicate Expanding(g: Graph, start: Name, dest: Name, firstPath: Path, queue: seq<Path>,
                            seenActors: set<Name>, seenFilms: set<Film>, lv: Levels)
  {
    var level := |firstPath.hops|;
    var u := firstPath.LastPlayer();
    && firstPath.start == start && ValidPath(g, firstPath) && level < MaxDegree
    && SeenSets(start, dest, seenActors, seenFilms, lv)
    && u in lv.actorLevel && (u in lv.expanded || lv.actorLevel[u] == level)
    && LevelsBelow(lv.actorLevel, lv.filmLevel, level)
    && QueueOk(g, start, queue, lv.actorLevel, level)
    && Tracked(queue, lv.actorLevel, lv.expanded, {u})
    && Closed(g, lv)
    && BelowExpanded(lv.actorLevel, lv.expanded, level)
  }

  /**
   * Breadth-first order at work: once every player reached below `bound`
   * is expanded, the end of any valid path of at most `bound` hops has been
   * reached, at a level no greater than the path's length.
   */
  lemma {:induction false} Reached(g: Graph, start: Name, lv: Levels, bound: nat, p: Path)
    requires p.start == start && ValidPath(g, p) && |p.hops| <= bound
    requires start in lv.actorLevel && lv.actorLevel[start] == 0
    requires Closed(g, lv) && BelowExpanded(lv.actorLevel, lv.expanded, bound)
    ensures p.LastPlayer() in lv.actorLevel && lv.actorLevel[p.LastPlayer()] <= |p.hops|
    decreases |p.hops|
  {
    var n := |p.hops|;
    if n > 0 {
      var prefix := Path(start, p.hops[..n - 1]);
      assert ValidPath(g, prefix) by {
        forall i | 0 <= i < |prefix.hops|
          ensures prefix.hops[i].film in g.credits(prefix.PlayerBefore(i))
          ensures prefix.hops[i].player in g.cast(prefix.hops[i].film)
        {
          assert prefix.hops[i] == p.hops[i] && prefix.PlayerBefore(i) == p.PlayerBefore(i);
        }
      }
      Reached(g, start, lv, bound, prefix);
      var a := prefix.LastPlayer();
      assert a == p.PlayerBefore(n - 1);
      var hop := p.hops[n - 1];
      assert hop.film in g.credits(a) && hop.player in g.cast(hop.film);
      assert a in lv.expanded;
      ExpandedStep(g, lv, a, hop.film, hop.player);
      assert p.LastPlayer() == hop.player;
    }
  }

  /** One hop out of an expanded player stays within one level of it. */
  lemma ExpandedStep(g: Graph, lv: Levels, a: Name, film: Film, b: Name)
    requires Closed(g, lv) && a in lv.expanded && film in g.credits(a) && b in g.cast(film)
    ensures a in lv.actorLevel && b in lv.actorLevel && lv.actorLevel[b] <= lv.actorLevel[a] + 1
  {
    assert CreditsLookedAt(g, lv, a);
    assert CastReached(g, lv, film);
  }

  /** A player that has not been reached has no path of at most `bound` hops. */
  lemma NotReachedWithin(g: Graph, start: Name, dest: Name, lv: Levels, bound: nat)
    requires dest !in lv.actorLevel
    requires start in lv.actorLevel && lv.actorLevel[start] == 0
    requires Closed(g, lv) && BelowExpanded(lv.actorLevel, lv.expanded, bound)
    ensures NoPathWithin(g, start, dest, bound)
  {
    forall p | Connects(g, p, start, dest)
      ensures |p.hops| > bound
    {
      if |p.hops| <= bound {
        Reached(g, start, lv, bound, p);
      }
    }
  }

  /** `log` lists the members of `seen`, each once. */
  ghost predicate Logs<T(!new)>(log: seq<T>, seen: set<T>)
  {
    && (forall i, j :: 0 <= i < j < |log| ==> log[i] != log[j])
    && (forall x :: x in log <==> x in seen)
  }

  lemma LogsAppend<T(!new)>(log: seq<T>, seen: set<T>, x: T)
    requires Logs(log, seen) && x !in seen
    ensures Logs(log + [x], seen + {x})
  {
    assert forall i :: 0 <= i < |log| ==> (log + [x])[i] == log[i];
  }

  /** Each film seen came from the credits of a player in `owners`. */
  ghost predicate FilmsSourced(g: Graph, filmFrom: map<Film, Name>, seenFilms: set<Film>, owners: set<Name>)
  {
    && filmFrom.Keys == seenFilms
    && forall f :: f in filmFrom ==> filmFrom[f] in owners && f in g.credits(filmFrom[f])
  }

  /** Each player seen came from the cast of a film seen. */
  ghost predicate ActorsSourced(g: Graph, actorFrom: map<Name, Film>, seenActors: set<Name>, seenFilms: set<Film>)
  {
    && actorFrom.Keys == seenActors
    && forall b :: b in actorFrom ==> actorFrom[b] in seenFilms && b in g.cast(actorFrom[b])
  }

  lemma FilmsSourcedAdd(g: Graph, filmFrom: map<Film, Name>, seenFilms: set<Film>, owners: set<Name>, f: Film, a: Name)
    requires FilmsSourced(g, filmFrom, seenFilms, owners) && a in owners && f in g.credits(a)
    ensures FilmsSourced(g, filmFrom[f := a], seenFilms + {f}, owners)
  {
  }

  lemma FilmsSourcedOwners(g: Graph, filmFrom: map<Film, Name>, seenFilms: set<Film>, owners: set<Name>, owners': set<Name>)
    requires FilmsSourced(g, filmFrom, seenFilms, owners) && owners <= owners'
    ensures FilmsSourced(g, filmFrom, seenFilms, owners')
  {
  }

  lemma ActorsSourcedAdd(g: Graph, actorFrom: map<Name, Film>, seenActors: set<Name>, seenFilms: set<Film>, b: Name, f: Film)
    requires ActorsSourced(g, actorFrom, seenActors, seenFilms) && f in seenFilms && b in g.cast(f)
    ensures ActorsSourced(g, actorFrom[b := f], seenActors + {b}, seenFilms)
  {
  }

  lemma ActorsSourcedGrow(g: Graph, actorFrom: map<Name, Film>, seenActors: set<Name>, seenFilms: set<Film>, seenFilms': set<Film>)
    requires ActorsSourced(g, actorFrom, seenActors, seenFilms) && seenFilms <= seenFilms'
    ensures ActorsSourced(g, actorFrom, seenActors, seenFilms')
  {
  }

  /** `queue'` is `queue` followed by paths of `level + 1` hops. */
  ghost predicate Grown(queue: seq<Path>, queue': seq<Path>, level: nat)
  {
    && |queue'| >= |queue| && queue'[..|queue|] == queue
    && (forall i :: |queue| <= i < |queue'| ==> |queue'[i].hops| == level + 1)
  }

  lemma GrownAppend(queue: seq<Path>, queue': seq<Path>, level: nat, p: Path)
    requires Grown(queue, queue', level) && |p.hops| == level + 1
    ensures Grown(queue, queue' + [p], level)
  {
    assert (queue' + [p])[..|queue|] == queue'[..|queue|];
  }

  lemma GrownTransitive(a: seq<Path>, b: seq<Path>, c: seq<Path>, level: nat)
    requires Grown(a, b, level) && Grown(b, c, level)
    ensures Grown(a, c, level)
  {
    assert c[..|a|] == c[..|b|][..|a|];
  }

  // ---------------------------------------------------------------------
  // Termination: each pass takes a path of length L < 6 off the front and
  // only adds paths of length L + 1.

  /** How many queued paths have exactly `k` hops. */
  function CountLength(queue: seq<Path>, k: nat): (n: nat)
    ensures n <= |queue|
  {
    if queue == [] then 0
    else (if |queue[0].hops| == k then 1 else 0) + CountLength(queue[1..], k)
  }

  lemma {:induction false} CountLengthAppend(a: seq<Path>, b: seq<Path>, k: nat)
    ensures CountLength(a + b, k) == CountLength(a, k) + CountLength(b, k)
  {
    if a == [] {
      assert a + b == b;
    } else {
      assert (a + b)[0] == a[0] && (a + b)[1..] == a[1..] + b;
      CountLengthAppend(a[1..], b, k);
    }
  }

  lemma {:induction false} CountLengthNone(b: seq<Path>, k: nat)
    requires forall i :: 0 <= i < |b| ==> |b[i].hops| != k
    ensures CountLength(b, k) == 0
  {
    if b != [] {
      CountLengthNone(b[1..], k);
    }
  }

  /** Replacing the front path by longer ones lowers the count at its length and keeps shorter counts. */
  lemma CountAfterPass(queue: seq<Path>, queue': seq<Path>, level: nat)
    requires queue != [] && |queue[0].hops| == level
    requires Grown(queue[1..], queue', level)
    ensures forall k: nat :: k < level ==> CountLength(queue', k) == CountLength(queue, k)
    ensures CountLength(queue', level) < CountLength(queue, level)
  {
    var pushed := queue'[|queue| - 1..];
    assert queue' == queue[1..] + pushed;
    forall k: nat | k <= level
      ensures CountLength(queue', k) == CountLength(queue[1..], k)
    {
      CountLengthAppend(queue[1..], pushed, k);
      CountLengthNone(pushed, k);
    }
  }

  // ---------------------------------------------------------------------
  // The search.

  /**
   * One member of the cast of `film`: a player not seen before is marked
   * seen and ends a copy of `firstPath` extended by one hop, which is the
   * answer if the player is `dest` and is queued otherwise.
   */
  method ReachActor(g: Graph, start: Name, dest: Name, firstPath: Path, film: Film, currentActor: Name,
                    queue: seq<Path>, seenActors: set<Name>, seenFilms: set<Film>,
                    ghost lv: Levels, ghost named: seq<Name>, ghost actorFrom: map<Name, Film>)
    returns (found: Option<Path>, queue': seq<Path>, seenActors': set<Name>,
             ghost lv': Levels, ghost named': seq<Name>, ghost actorFrom': map<Name, Film>)
    requires Expanding(g, start, dest, firstPath, queue, seenActors, seenFilms, lv)
    requires film in g.credits(firstPath.LastPlayer()) && currentActor in g.cast(film)
    requires Logs(named, seenActors)
    requires film in seenFilms && ActorsSourced(g, actorFrom, seenActors, seenFilms)
    ensures found.Some? ==> Connects(g, found.value, start, dest) && |found.value.hops| == |firstPath.hops| + 1
    ensures found.Some? && start != dest ==> NoPathWithin(g, start, dest, |firstPath.hops|)
    ensures found.None? ==>
      && Expanding(g, start, dest, firstPath, queue', seenActors', seenFilms, lv')
      && lv'.doneFilms == lv.doneFilms && lv'.expanded == lv.expanded && lv'.filmLevel == lv.filmLevel
      && Grown(queue, queue', |firstPath.hops|)
      && currentActor in lv'.actorLevel && lv.actorLevel.Keys <= lv'.actorLevel.Keys
    ensures Logs(named', seenActors') && ActorsSourced(g, actorFrom', seenActors', seenFilms)
  {
    var level := |firstPath.hops|;
    found, queue', seenActors', lv', named', actorFrom' := None, queue, seenActors, lv, named, actorFrom;
    if currentActor !in seenActors {
      var clonePath := firstPath.AddConnection(film, currentActor);
      AddConnectionValid(g, firstPath, film, currentActor);
      if currentActor == dest {
        if start != dest {
          NotReachedWithin(g, start, dest, lv, level);
        }
        found := Some(clonePath);
        return;
      }
      if currentActor != start {
        lv' := lv.(actorLevel := lv.actorLevel[currentActor := level + 1]);
      }
      NewPathTracked(g, start, dest, firstPath, queue, seenActors, seenFilms, lv, lv', clonePath);
      assert Grown(queue, queue, level);
      GrownAppend(queue, queue, level, clonePath);
      LogsAppend(named, seenActors, currentActor);
      seenActors' := seenActors + {currentActor};
      queue' := queue + [clonePath];
      named' := named + [currentActor];
      ActorsSourcedAdd(g, actorFrom, seenActors, seenFilms, currentActor, film);
      actorFrom' := actorFrom[currentActor := film];
    }
  }

  /**
   * Looks at the cast of `film`, which the player ending `firstPath` is
   * credited in: every player not seen before is marked seen and ends a new
   * path one hop longer; the first such path that reaches `dest` is the
   * answer.
   */
  method ExpandFilm(g: Graph, start: Name, dest: Name, firstPath: Path, film: Film,
                    queue: seq<Path>, seenActors: set<Name>, seenFilms: set<Film>,
                    ghost lv: Levels, ghost named: seq<Name>, ghost actorFrom: map<Name, Film>)
    returns (found: Option<Path>, queue': seq<Path>, seenActors': set<Name>,
             ghost lv': Levels, ghost named': seq<Name>, ghost actorFrom': map<Name, Film>)
    requires Expanding(g, start, dest, firstPath, queue, seenActors, seenFilms, lv)
    requires film in g.credits(firstPath.LastPlayer())
    requires ActorsSourced(g, actorFrom, seenActors, seenFilms)
    requires film in seenFilms && film !in lv.doneFilms && lv.doneFilms == seenFilms - {film}
    requires lv.filmLevel[film] == |firstPath.hops|
    requires Logs(named, seenActors)
    ensures found.Some? ==> Connects(g, found.value, start, dest) && |found.value.hops| == |firstPath.hops| + 1
    ensures found.Some? && start != dest ==> NoPathWithin(g, start, dest, |firstPath.hops|)
    ensures found.None? ==>
      && Expanding(g, start, dest, firstPath, queue', seenActors', seenFilms, lv')
      && lv'.doneFilms == seenFilms && lv'.expanded == lv.expanded && lv'.filmLevel == lv.filmLevel
      && Grown(queue, queue', |firstPath.hops|)
    ensures Logs(named', seenActors') && ActorsSourced(g, actorFrom', seenActors', seenFilms)
  {
    var level := |firstPath.hops|;
    var cast := g.cast(film);
    found, queue', seenActors', lv', named', actorFrom' := None, queue, seenActors, lv, named, actorFrom;
    var j := 0;
    while j < |cast|
      invariant 0 <= j <= |cast|
      invariant found.None?
      invariant Expanding(g, start, dest, firstPath, queue', seenActors', seenFilms, lv')
      invariant lv'.expanded == lv.expanded && lv'.filmLevel == lv.filmLevel && lv'.doneFilms == lv.doneFilms
      invariant forall k :: 0 <= k < j ==> cast[k] in lv'.actorLevel
      invariant Grown(queue, queue', level)
      invariant Logs(named', seenActors') && ActorsSourced(g, actorFrom', seenActors', seenFilms)
    {
      var currentActor := cast[j];
      ghost var queueBefore, lvBefore := queue', lv';
      found, queue', seenActors', lv', named', actorFrom' :=
        ReachActor(g, start, dest, firstPath, film, currentActor, queue', seenActors', seenFilms, lv', named', actorFrom');
      if found.Some? {
        return;
      }
      GrownTransitive(queue, queueBefore, queue', level);
      PrefixIn(cast, j, lvBefore.actorLevel.Keys, lv'.actorLevel.Keys);
      j := j + 1;
    }
    assert CastReached(g, lv', film) by {
      forall b | b in cast
        ensures b in lv'.actorLevel && lv'.actorLevel[b] <= lv'.filmLevel[film] + 1
      {
        var k :| 0 <= k < |cast| && cast[k] == b;
        assert b in lv'.actorLevel;
      }
    }
    FilmFinished(g, start, dest, firstPath, queue', seenActors', seenFilms, lv', film);
    lv' := lv'.(doneFilms := lv'.doneFilms + {film});
  }

  /** `lv'` reaches more players than `lv` and agrees with it on everything else. */
  ghost predicate Extends(lv: Levels, lv': Levels)
  {
    && lv'.expanded == lv.expanded && lv'.doneFilms == lv.doneFilms && lv'.filmLevel == lv.filmLevel
    && (forall a :: a in lv.actorLevel ==> a in lv'.actorLevel && lv'.actorLevel[a] == lv.actorLevel[a])
  }

  lemma ClosedExtended(g: Graph, lv: Levels, lv': Levels)
    requires Closed(g, lv) && Extends(lv, lv')
    ensures Closed(g, lv')
  {
    forall a | a in lv'.expanded
      ensures CreditsLookedAt(g, lv', a)
    {
      assert CreditsLookedAt(g, lv, a);
    }
    forall f | f in lv'.doneFilms
      ensures CastReached(g, lv', f)
    {
      assert CastReached(g, lv, f);
    }
  }

  lemma BelowExpandedExtended(lv: Levels, lv': Levels, level: nat)
    requires BelowExpanded(lv.actorLevel, lv.expanded, level) && Extends(lv, lv')
    requires forall a :: a in lv'.actorLevel && a !in lv.actorLevel ==> lv'.actorLevel[a] >= level
    ensures BelowExpanded(lv'.actorLevel, lv'.expanded, level)
  {
  }

  lemma QueueOkAppend(g: Graph, start: Name, queue: seq<Path>, lv: Levels, lv': Levels, level: nat, p: Path)
    requires QueueOk(g, start, queue, lv.actorLevel, level) && Extends(lv, lv')
    requires p.start == start && ValidPath(g, p) && |p.hops| == level + 1
    requires p.LastPlayer() in lv'.actorLevel
    requires p.LastPlayer() == start || lv'.actorLevel[p.LastPlayer()] == level + 1
    ensures QueueOk(g, start, queue + [p], lv'.actorLevel, level)
  {
    var q := queue + [p];
    forall i | 0 <= i < |q|
      ensures q[i].start == start && ValidPath(g, q[i]) && level <= |q[i].hops| <= level + 1
      ensures q[i].LastPlayer() in lv'.actorLevel
      ensures q[i].LastPlayer() == start || lv'.actorLevel[q[i].LastPlayer()] == |q[i].hops|
    {
      if i < |queue| {
        assert q[i] == queue[i];
      }
    }
  }

  lemma TrackedAppend(queue: seq<Path>, lv: Levels, lv': Levels, pending: set<Name>, p: Path)
    requires Tracked(queue, lv.actorLevel, lv.expanded, pending) && Extends(lv, lv')
    requires forall a :: a in lv'.actorLevel && a !in lv.actorLevel ==> a == p.LastPlayer() && lv'.actorLevel[a] == |p.hops|
    ensures Tracked(queue + [p], lv'.actorLevel, lv'.expanded, pending)
  {
    var q := queue + [p];
    forall a | a in lv'.actorLevel && a !in lv'.expanded && a !in pending
      ensures exists i :: 0 <= i < |q| && q[i].LastPlayer() == a && |q[i].hops| == lv'.actorLevel[a]
    {
      if a in lv.actorLevel {
        var i :| 0 <= i < |queue| && queue[i].LastPlayer() == a && |queue[i].hops| == lv.actorLevel[a];
        assert q[i] == queue[i];
      } else {
        assert q[|queue|] == p;
      }
    }
  }

  /** Appending the path of a newly reached player keeps the expansion invariant. */
  lemma NewPathTracked(g: Graph, start: Name, dest: Name, firstPath: Path, queue: seq<Path>,
                       seenActors: set<Name>, seenFilms: set<Film>, lv: Levels, lv': Levels, p: Path)
    requires Expanding(g, start, dest, firstPath, queue, seenActors, seenFilms, lv)
    requires p.start == start && ValidPath(g, p) && |p.hops| == |firstPath.hops| + 1
    requires p.LastPlayer() != dest && p.LastPlayer() !in seenActors
    requires lv' == if p.LastPlayer() == start then lv
                    else lv.(actorLevel := lv.actorLevel[p.LastPlayer() := |firstPath.hops| + 1])
    ensures Expanding(g, start, dest, firstPath, queue + [p], seenActors + {p.LastPlayer()}, seenFilms, lv')
    ensures Extends(lv, lv')
  {
    var level := |firstPath.hops|;
    assert Extends(lv, lv');
    assert forall a :: a in lv'.actorLevel && a !in lv.actorLevel ==> a == p.LastPlayer() && lv'.actorLevel[a] == |p.hops|;
    QueueOkAppend(g, start, queue, lv, lv', level, p);
    TrackedAppend(queue, lv, lv', {firstPath.LastPlayer()}, p);
    ClosedExtended(g, lv, lv');
    BelowExpandedExtended(lv, lv', level);
  }

  /** Once every player in its cast has been reached, a film counts as looked at. */
  lemma FilmDone(g: Graph, lv: Levels, film: Film)
    requires Closed(g, lv) && CastReached(g, lv, film)
    ensures Closed(g, lv.(doneFilms := lv.doneFilms + {film}))
  {
    var lv' := lv.(doneFilms := lv.doneFilms + {film});
    forall a | a in lv'.expanded
      ensures CreditsLookedAt(g, lv', a)
    {
      assert CreditsLookedAt(g, lv, a);
    }
    forall f | f in lv'.doneFilms
      ensures CastReached(g, lv', f)
    {
      if f != film {
        assert CastReached(g, lv, f);
      }
    }
  }

  /** Finishing the cast of a film keeps the expansion invariant. */
  lemma FilmFinished(g: Graph, start: Name, dest: Name, firstPath: Path, queue: seq<Path>,
                     seenActors: set<Name>, seenFilms: set<Film>, lv: Levels, film: Film)
    requires Expanding(g, start, dest, firstPath, queue, seenActors, seenFilms, lv)
    requires CastReached(g, lv, film) && film in seenFilms
    ensures Expanding(g, start, dest, firstPath, queue, seenActors, seenFilms, lv.(doneFilms := lv.doneFilms + {film}))
  {
    FilmDone(g, lv, film);
  }

  /**
   * One film of the player ending `firstPath`: a film not seen before is
   * marked seen, its cast fetched and looked at.
   */
  method VisitFilm(g: Graph, start: Name, dest: Name, firstPath: Path, currentFilm: Film,
                   queue: seq<Path>, seenActors: set<Name>, seenFilms: set<Film>,
                   ghost lv: Levels, ghost queried: seq<Film>, ghost named: seq<Name>,
                   ghost filmFrom: map<Film, Name>, ghost actorFrom: map<Name, Film>)
    returns (found: Option<Path>, queue': seq<Path>, seenActors': set<Name>, seenFilms': set<Film>,
             ghost lv': Levels, ghost queried': seq<Film>, ghost named': seq<Name>,
             ghost filmFrom': map<Film, Name>, ghost actorFrom': map<Name, Film>)
    requires Expanding(g, start, dest, firstPath, queue, seenActors, seenFilms, lv)
    requires lv.doneFilms == seenFilms && currentFilm in g.credits(firstPath.LastPlayer())
    requires Logs(queried, seenFilms) && Logs(named, seenActors)
    requires FilmsSourced(g, filmFrom, seenFilms, lv.expanded + {firstPath.LastPlayer()})
    requires ActorsSourced(g, actorFrom, seenActors, seenFilms)
    ensures found.Some? ==> Connects(g, found.value, start, dest) && |found.value.hops| == |firstPath.hops| + 1
    ensures found.Some? && start != dest ==> NoPathWithin(g, start, dest, |firstPath.hops|)
    ensures found.None? ==>
      && Expanding(g, start, dest, firstPath, queue', seenActors', seenFilms', lv')
      && lv'.doneFilms == seenFilms' && lv'.expanded == lv.expanded
      && Grown(queue, queue', |firstPath.hops|)
      && currentFilm in seenFilms' && seenFilms <= seenFilms'
    ensures currentFilm in seenFilms ==>
      && found.None? && queue' == queue && seenActors' == seenActors && seenFilms' == seenFilms
      && lv' == lv && queried' == queried && named' == named
    ensures currentFilm !in seenFilms ==> queried' == queried + [currentFilm]
    ensures Logs(queried', seenFilms') && Logs(named', seenActors')
    ensures FilmsSourced(g, filmFrom', seenFilms', lv.expanded + {firstPath.LastPlayer()})
    ensures ActorsSourced(g, actorFrom', seenActors', seenFilms')
  {
    var level := |firstPath.hops|;
    found, queue', seenActors', seenFilms', lv', queried', named' := None, queue, seenActors, seenFilms, lv, queried, named;
    filmFrom', actorFrom' := filmFrom, actorFrom;
    assert Grown(queue, queue, level);
    if currentFilm !in seenFilms {
      LogsAppend(queried, seenFilms, currentFilm);
      seenFilms' := seenFilms + {currentFilm};
      queried' := queried + [currentFilm];
      FilmsSourcedAdd(g, filmFrom, seenFilms, lv.expanded + {firstPath.LastPlayer()}, currentFilm, firstPath.LastPlayer());
      filmFrom' := filmFrom[currentFilm := firstPath.LastPlayer()];
      ActorsSourcedGrow(g, actorFrom, seenActors, seenFilms, seenFilms');
      ghost var lvFilm := lv.(filmLevel := lv.filmLevel[currentFilm := level]);
      FilmReached(g, start, dest, firstPath, queue, seenActors, seenFilms', lv, lvFilm, currentFilm);
      found, queue', seenActors', lv', named', actorFrom' :=
        ExpandFilm(g, start, dest, firstPath, currentFilm, queue, seenActors, seenFilms', lvFilm, named, actorFrom);
    }
  }

  /** The first `i + 1` elements of `xs` are in `after` once the first `i` were in `before` and the `i`th is. */
  lemma PrefixIn<T>(xs: seq<T>, i: nat, before: set<T>, after: set<T>)
    requires i < |xs| && (forall k :: 0 <= k < i ==> xs[k] in before)
    requires before <= after && xs[i] in after
    ensures forall k :: 0 <= k < i + 1 ==> xs[k] in after
  {
  }

  /**
   * One pass of the outer loop after `firstPath` has been taken off the
   * queue: every film of its last player is visited.
   */
  method ExpandPlayer(g: Graph, start: Name, dest: Name, firstPath: Path,
                      queue: seq<Path>, seenActors: set<Name>, seenFilms: set<Film>,
                      ghost lv: Levels, ghost queried: seq<Film>, ghost named: seq<Name>,
                      ghost filmFrom: map<Film, Name>, ghost actorFrom: map<Name, Film>)
    returns (found: Option<Path>, queue': seq<Path>, seenActors': set<Name>, seenFilms': set<Film>,
             ghost lv': Levels, ghost queried': seq<Film>, ghost named': seq<Name>,
             ghost filmFrom': map<Film, Name>, ghost actorFrom': map<Name, Film>)
    requires Expanding(g, start, dest, firstPath, queue, seenActors, seenFilms, lv)
    requires lv.doneFilms == seenFilms
    requires start in lv.expanded || firstPath == Path(start, [])
    requires Logs(queried, seenFilms) && Logs(named, seenActors)
    requires FilmsSourced(g, filmFrom, seenFilms, lv.expanded) && ActorsSourced(g, actorFrom, seenActors, seenFilms)
    ensures found.Some? ==> Connects(g, found.value, start, dest) && |found.value.hops| == |firstPath.hops| + 1
    ensures found.Some? && start != dest ==> NoPathWithin(g, start, dest, |firstPath.hops|)
    ensures found.None? ==>
      && Searching(g, start, dest, queue', seenActors', seenFilms', lv', |firstPath.hops|)
      && Grown(queue, queue', |firstPath.hops|)
      && FilmsSourced(g, filmFrom', seenFilms', lv'.expanded)
    ensures Logs(queried', seenFilms') && Logs(named', seenActors')
    ensures ActorsSourced(g, actorFrom', seenActors', seenFilms')
  {
    var level := |firstPath.hops|;
    ghost var u := firstPath.LastPlayer();
    var films := g.credits(firstPath.LastPlayer());
    found, queue', seenActors', seenFilms', lv', queried', named' := None, queue, seenActors, seenFilms, lv, queried, named;
    filmFrom', actorFrom' := filmFrom, actorFrom;
    FilmsSourcedOwners(g, filmFrom, seenFilms, lv.expanded, lv.expanded + {u});
    var i := 0;
    while i < |films|
      invariant 0 <= i <= |films|
      invariant found.None?
      invariant Expanding(g, start, dest, firstPath, queue', seenActors', seenFilms', lv')
      invariant lv'.doneFilms == seenFilms' && lv'.expanded == lv.expanded
      invariant forall k :: 0 <= k < i ==> films[k] in seenFilms'
      invariant Grown(queue, queue', level)
      invariant Logs(queried', seenFilms') && Logs(named', seenActors')
      invariant FilmsSourced(g, filmFrom', seenFilms', lv.expanded + {u})
      invariant ActorsSourced(g, actorFrom', seenActors', seenFilms')
    {
      ghost var queueBefore, seenBefore := queue', seenFilms';
      found, queue', seenActors', seenFilms', lv', queried', named', filmFrom', actorFrom' :=
        VisitFilm(g, start, dest, firstPath, films[i], queue', seenActors', seenFilms', lv', queried', named',
                  filmFrom', actorFrom');
      if found.Some? {
        return;
      }
      GrownTransitive(queue, queueBefore, queue', level);
      PrefixIn(films, i, seenBefore, seenFilms');
      i := i + 1;
    }
    if u !in lv'.expanded {
      CreditsAllSeen(g, start, dest, firstPath, queue', seenActors', seenFilms', lv');
    }
    PlayerFinished(g, start, dest, firstPath, queue', seenActors', seenFilms', lv');
    lv' := lv'.(expanded := lv'.expanded + {u});
  }

  /** Once every film of the player ending `firstPath` has been seen, all its credits have been looked at. */
  lemma CreditsAllSeen(g: Graph, start: Name, dest: Name, firstPath: Path, queue: seq<Path>,
                       seenActors: set<Name>, seenFilms: set<Film>, lv: Levels)
    requires Expanding(g, start, dest, firstPath, queue, seenActors, seenFilms, lv)
    requires lv.doneFilms == seenFilms && firstPath.LastPlayer() !in lv.expanded
    requires forall k :: 0 <= k < |g.credits(firstPath.LastPlayer())| ==> g.credits(firstPath.LastPlayer())[k] in seenFilms
    ensures CreditsLookedAt(g, lv, firstPath.LastPlayer())
  {
    var u := firstPath.LastPlayer();
    var films := g.credits(u);
    forall f | f in films
      ensures f in lv.doneFilms && f in lv.filmLevel && lv.filmLevel[f] <= lv.actorLevel[u]
    {
      var k :| 0 <= k < |films| && films[k] == f;
      assert f in lv.filmLevel;
    }
  }

  /** Once its films have all been looked at, the expanded player joins `expanded` and the outer invariant holds again. */
  lemma PlayerFinished(g: Graph, start: Name, dest: Name, firstPath: Path, queue: seq<Path>,
                       seenActors: set<Name>, seenFilms: set<Film>, lv: Levels)
    requires Expanding(g, start, dest, firstPath, queue, seenActors, seenFilms, lv)
    requires lv.doneFilms == seenFilms
    requires start in lv.expanded || firstPath == Path(start, [])
    requires firstPath.LastPlayer() !in lv.expanded ==> CreditsLookedAt(g, lv, firstPath.LastPlayer())
    ensures Searching(g, start, dest, queue, seenActors, seenFilms,
                      lv.(expanded := lv.expanded + {firstPath.LastPlayer()}), |firstPath.hops|)
  {
    var u := firstPath.LastPlayer();
    if u !in lv.expanded {
      PlayerDone(g, lv, u);
    } else {
      assert lv.(expanded := lv.expanded + {u}) == lv;
    }
  }

  /** Once every film of player `u` has been looked at, `u` counts as expanded. */
  lemma PlayerDone(g: Graph, lv: Levels, u: Name)
    requires Closed(g, lv) && CreditsLookedAt(g, lv, u)
    ensures Closed(g, lv.(expanded := lv.expanded + {u}))
  {
    var lv' := lv.(expanded := lv.expanded + {u});
    forall a | a in lv'.expanded
      ensures CreditsLookedAt(g, lv', a)
    {
      if a != u {
        assert CreditsLookedAt(g, lv, a);
      }
    }
    forall f | f in lv'.doneFilms
      ensures CastReached(g, lv', f)
    {
      assert CastReached(g, lv, f);
    }
  }

  /** Marking a new film seen at the current level keeps the expansion invariant. */
  lemma FilmReached(g: Graph, start: Name, dest: Name, firstPath: Path, queue: seq<Path>,
                    seenActors: set<Name>, seenFilms': set<Film>, lv: Levels, lv': Levels, film: Film)
    requires Expanding(g, start, dest, firstPath, queue, seenActors, seenFilms' - {film}, lv)
    requires film in seenFilms' && film !in lv.filmLevel && lv.doneFilms == seenFilms' - {film}
    requires lv' == lv.(filmLevel := lv.filmLevel[film := |firstPath.hops|])
    ensures Expanding(g, start, dest, firstPath, queue, seenActors, seenFilms', lv')
    ensures lv'.doneFilms == seenFilms' - {film} && lv'.filmLevel[film] == |firstPath.hops|
  {
    assert forall f :: f in lv.filmLevel ==> lv'.filmLevel[f] == lv.filmLevel[f];
  }

  /** Taking the front path off a queue in the `Searching` state starts an expansion. */
  lemma StartExpanding(g: Graph, start: Name, dest: Name, queue: seq<Path>,
                       seenActors: set<Name>, seenFilms: set<Film>, lv: Levels, level: nat)
    requires Searching(g, start, dest, queue, seenActors, seenFilms, lv, level)
    requires queue != [] && |queue[0].hops| < MaxDegree
    ensures Expanding(g, start, dest, queue[0], queue[1..], seenActors, seenFilms, lv)
    ensures start in lv.expanded || queue[0] == Path(start, [])
  {
    var first := queue[0];
    var newLevel := |first.hops|;
    assert forall i :: 1 <= i < |queue| ==> queue[1..][i - 1] == queue[i];
    assert Tracked(queue[1..], lv.actorLevel, lv.expanded, {first.LastPlayer()}) by {
      forall a | a in lv.actorLevel && a !in lv.expanded && a != first.LastPlayer()
        ensures exists i :: 0 <= i < |queue[1..]| && queue[1..][i].LastPlayer() == a && |queue[1..][i].hops| == lv.actorLevel[a]
      {
        var i :| 0 <= i < |queue| && queue[i].LastPlayer() == a && |queue[i].hops| == lv.actorLevel[a];
        assert queue[1..][i - 1] == queue[i];
      }
    }
    assert BelowExpanded(lv.actorLevel, lv.expanded, newLevel) by {
      forall a | a in lv.actorLevel && lv.actorLevel[a] < newLevel
        ensures a in lv.expanded
      {
      }
    }
  }

  /** When the loop stops without an answer, no path of at most six hops exists. */
  lemma SearchExhausted(g: Graph, start: Name, dest: Name, queue: seq<Path>,
                        seenActors: set<Name>, seenFilms: set<Film>, lv: Levels, level: nat)
    requires Searching(g, start, dest, queue, seenActors, seenFilms, lv, level)
    requires queue == [] || |queue[0].hops| >= MaxDegree
    requires start != dest
    ensures NoPathWithin(g, start, dest, MaxDegree)
  {
    assert BelowExpanded(lv.actorLevel, lv.expanded, MaxDegree) by {
      forall a | a in lv.actorLevel && lv.actorLevel[a] < MaxDegree
        ensures a in lv.expanded
      {
      }
    }
    NotReachedWithin(g, start, dest, lv, MaxDegree);
  }

  /** Every player named was met in the cast of a film whose cast was fetched. */
  lemma NamedFromQueried(g: Graph, queried: seq<Film>, named: seq<Name>, seenActors: set<Name>,
                         seenFilms: set<Film>, actorFrom: map<Name, Film>)
    requires Logs(queried, seenFilms) && Logs(named, seenActors)
    requires ActorsSourced(g, actorFrom, seenActors, seenFilms)
    ensures forall b :: b in named ==> exists f :: f in queried && b in g.cast(f)
  {
    forall b | b in named
      ensures exists f :: f in queried && b in g.cast(f)
    {
      var f := actorFrom[b];
      assert f in queried && b in g.cast(f);
    }
  }

  /**
   * When the search runs out, the films fetched are exactly the credits of
   * the players expanded, and every other player in their casts was named.
   */
  lemma ExhaustedLogs(g: Graph, start: Name, dest: Name, queue: seq<Path>, seenActors: set<Name>,
                      seenFilms: set<Film>, lv: Levels, level: nat, queried: seq<Film>, named: seq<Name>,
                      filmFrom: map<Film, Name>)
    requires Searching(g, start, dest, queue, seenActors, seenFilms, lv, level)
    requires queue == [] || |queue[0].hops| >= MaxDegree
    requires Logs(queried, seenFilms) && Logs(named, seenActors)
    requires FilmsSourced(g, filmFrom, seenFilms, lv.expanded)
    ensures start in lv.expanded
    ensures forall a :: a in lv.expanded ==> a == start || a in named
    ensures forall a, f :: a in lv.expanded && f in g.credits(a) ==> f in queried
    ensures forall f :: f in queried ==> exists a :: a in lv.expanded && f in g.credits(a)
    ensures forall f, b :: f in queried && b in g.cast(f) && b != start ==> b in named
  {
    forall a, f | a in lv.expanded && f in g.credits(a)
      ensures f in queried
    {
      assert CreditsLookedAt(g, lv, a);
    }
    forall f | f in queried
      ensures exists a :: a in lv.expanded && f in g.credits(a)
    {
      var a := filmFrom[f];
      assert a in lv.expanded && f in g.credits(a);
    }
    forall f, b | f in queried && b in g.cast(f) && b != start
      ensures b in named
    {
      assert CastReached(g, lv, f);
    }
  }

  /**
   * Breadth-first search for a chain of co-stars from `start` to `dest`.
   * An answer is a valid chain of at most six hops and, when the two
   * players differ, a shortest one; no answer means that no chain of six
   * hops or fewer exists. The ghost logs record the films whose cast was
   * fetched and the players that were made to end a path, none twice;
   * `expanded` is the set of players whose credits were gone through.
   */
  method GenerateShortestPath(g: Graph, start: Name, dest: Name)
    returns (r: Option<Path>, ghost queried: seq<Film>, ghost named: seq<Name>, ghost expanded: set<Name>)
    ensures r.Some? ==> Connects(g, r.value, start, dest) && 1 <= |r.value.hops| <= MaxDegree
    ensures r.Some? && start != dest ==> forall p :: Connects(g, p, start, dest) ==> |r.value.hops| <= |p.hops|
    ensures r.None? && start != dest ==> NoPathWithin(g, start, dest, MaxDegree)
    ensures forall i, j :: 0 <= i < j < |queried| ==> queried[i] != queried[j]
    ensures forall i, j :: 0 <= i < j < |named| ==> named[i] != named[j]
    ensures forall b :: b in named ==> exists f :: f in queried && b in g.cast(f)
    ensures r.None? ==>
      && start in expanded
      && (forall a :: a in expanded ==> a == start || a in named)
      && (forall a, f :: a in expanded && f in g.credits(a) ==> f in queried)
      && (forall f :: f in queried ==> exists a :: a in expanded && f in g.credits(a))
      && (forall f, b :: f in queried && b in g.cast(f) && b != start ==> b in named)
  {
    var partialPaths := [Path(start, [])];
    var previouslySeenActors: set<Name> := {};
    var previouslySeenFilms: set<Film> := {};
    ghost var lv := Levels({}, {}, map[start := 0], map[]);
    ghost var filmFrom: map<Film, Name>, actorFrom: map<Name, Film> := map[], map[];
    r := None;
    ghost var level: nat := 0;
    queried, named := [], [];
    while partialPaths != [] && |partialPaths[0].hops| < MaxDegree
      invariant Searching(g, start, dest, partialPaths, previouslySeenActors, previouslySeenFilms, lv, level)
      invariant Logs(queried, previouslySeenFilms) && Logs(named, previouslySeenActors)
      invariant FilmsSourced(g, filmFrom, previouslySeenFilms, lv.expanded)
      invariant ActorsSourced(g, actorFrom, previouslySeenActors, previouslySeenFilms)
      invariant r.None?
      decreases CountLength(partialPaths, 0), CountLength(partialPaths, 1), CountLength(partialPaths, 2),
                CountLength(partialPaths, 3), CountLength(partialPaths, 4), CountLength(partialPaths, 5)
    {
      var firstPath := partialPaths[0];
      StartExpanding(g, start, dest, partialPaths, previouslySeenActors, previouslySeenFilms, lv, level);
      ghost var before := partialPaths;
      partialPaths := partialPaths[1..];
      level := |firstPath.hops|;
      r, partialPaths, previouslySeenActors, previouslySeenFilms, lv, queried, named, filmFrom, actorFrom :=
        ExpandPlayer(g, start, dest, firstPath, partialPaths, previouslySeenActors, previouslySeenFilms,
                     lv, queried, named, filmFrom, actorFrom);
      if r.Some? {
        if start != dest {
          forall p | Connects(g, p, start, dest)
            ensures |r.value.hops| <= |p.hops|
          {
          }
        }
        NamedFromQueried(g, queried, named, previouslySeenActors, previouslySeenFilms, actorFrom);
        expanded := lv.expanded;
        return;
      }
      CountAfterPass(before, partialPaths, level);
    }
    if start != dest {
      SearchExhausted(g, start, dest, partialPaths, previouslySeenActors, previouslySeenFilms, lv, level);
    }
    NamedFromQueried(g, queried, named, previouslySeenActors, previouslySeenFilms, actorFrom);
    ExhaustedLogs(g, start, dest, partialPaths, previouslySeenActors, previouslySeenFilms, lv, level,
                  queried, named, filmFrom);
    expanded := lv.expanded;
    r := None;
  }

  /** What the program reports for a pair of players. */
  datatype Connection = SamePerson | Connected(path: Path) | NotConnected

  /**
   * The driver's check before searching: asking for a player and
   * themselves is turned away; otherwise the search runs.
   */
  method FindConnection(g: Graph, source: Name, target: Name) returns (c: Connection)
    ensures c.SamePerson? <==> source == target
    ensures c.Connected? ==> Connects(g, c.path, source, target) && |c.path.hops| <= MaxDegree
    ensures c.Connected? ==> forall p :: Connects(g, p, source, target) ==> |c.path.hops| <= |p.hops|
    ensures c.NotConnected? ==> NoPathWithin(g, source, target, MaxDegree)
  {
    if source == target {
      return SamePerson;
    }
    var r, _, _, _ := GenerateShortestPath(g, source, target);
    c := if r.Some? then Connected(r.value) else NotConnected;
  }
}
