/** Dispatchers and their subscribers: links that must agree on both sides. */
module Observer {
  import opened Options

  // ---- The links as values ----

  /** lists holds each live dispatcher's m_subscribers, link each live
      callback's m_dispatcher. */
  datatype World<!D(==), !C(==)> = World(lists: map<D, seq<C>>, link: map<C, Option<D>>)

  /** list::erase of the first occurrence. */
  function Without<C(==)>(s: seq<C>, c: C): (r: seq<C>)
  {
    if s == [] then [] else if s[0] == c then s[1..] else [s[0]] + Without(s[1..], c)
  }

  lemma {:induction false} WithoutAt<C>(s: seq<C>, c: C, i: nat)
    requires i < |s| && s[i] == c && c !in s[..i]
    ensures Without(s, c) == s[..i] + s[i + 1..]
  {
    if i > 0 {
      assert s[1..][..i - 1] == s[..i][1..];
      WithoutAt(s[1..], c, i - 1);
      assert s[..i] == [s[0]] + s[1..][..i - 1];
    }
  }

  datatype Action<D, C> =
    | NewDispatcher(d: D)
    | NewCallback(c: C)
    | Attach(d: D, c: C)
    | Detach(d: D, c: C)
    | DropDispatcher(d: D)
    | DropCallback(c: C)

  /** The calls that make sense: on live objects, and attaching only a callback
      that is currently detached. */
  predicate Allowed<D(==), C(==)>(w: World<D, C>, a: Action<D, C>)
  {
    match a
    case NewDispatcher(d) => d !in w.lists
    case NewCallback(c) => c !in w.link
    case Attach(d, c) => d in w.lists && c in w.link && w.link[c] == None
    case Detach(d, c) => d in w.lists && c in w.link
    case DropDispatcher(d) => d in w.lists
    case DropCallback(c) => c in w.link && (w.link[c].Some? ==> w.link[c].value in w.lists)
  }

  function Attached<D(==), C(==)>(w: World<D, C>, d: D, c: C): (w': World<D, C>)
    requires d in w.lists
  {
    World(w.lists[d := [c] + w.lists[d]], w.link[c := Some(d)])
  }

  function Detached<D(==), C(==)>(w: World<D, C>, d: D, c: C): (w': World<D, C>)
    requires d in w.lists
  {
    if c in w.lists[d] then World(w.lists[d := Without(w.lists[d], c)], w.link[c := None]) else w
  }

  function WithoutDispatcher<D(==), C(==)>(w: World<D, C>, d: D): (w': World<D, C>)
    requires d in w.lists
  {
    World(w.lists - {d}, map c | c in w.link :: if c in w.lists[d] then None else w.link[c])
  }

  function WithoutCallback<D(==), C(==)>(w: World<D, C>, c: C): (w': World<D, C>)
    requires c in w.link && (w.link[c].Some? ==> w.link[c].value in w.lists)
  {
    var w1 := if w.link[c].Some? then Detached(w, w.link[c].value, c) else w;
    World(w1.lists, w1.link - {c})
  }

  function Apply<D(==), C(==)>(w: World<D, C>, a: Action<D, C>): (w': World<D, C>)
    requires Allowed(w, a)
  {
    match a
    case NewDispatcher(d) => World(w.lists[d := []], w.link)
    case NewCallback(c) => World(w.lists, w.link[c := None])
    case Attach(d, c) => Attached(w, d, c)
    case Detach(d, c) => Detached(w, d, c)
    case DropDispatcher(d) => WithoutDispatcher(w, d)
    case DropCallback(c) => WithoutCallback(w, c)
  }

  ghost predicate Distinct<C>(s: seq<C>)
  {
    forall i, j :: 0 <= i < j < |s| ==> s[i] != s[j]
  }

  /** The two sides agree, nothing is listed twice, and neither side mentions
      an object that is gone. */
  ghost predicate Linked<D, C>(w: World<D, C>)
  {
    && (forall d :: d in w.lists ==> Distinct(w.lists[d]))
    && (forall d, c :: d in w.lists && c in w.lists[d] ==> c in w.link && w.link[c] == Some(d))
    && (forall c :: c in w.link && w.link[c].Some? ==> w.link[c].value in w.lists && c in w.lists[w.link[c].value])
  }

  lemma WithoutOnce<C>(s: seq<C>, c: C)
    requires Distinct(s) && c in s
    ensures Distinct(Without(s, c))
    ensures forall b :: b in Without(s, c) <==> b in s && b != c
    ensures exists i :: 0 <= i < |s| && s[i] == c && Without(s, c) == s[..i] + s[i + 1..]
  {
    hide Without;
    var i :| 0 <= i < |s| && s[i] == c;
    WithoutAt(s, c, i);
  }

  /** Attaching keeps the links in agreement exactly when the callback was
      attached nowhere. */
  lemma AttachNeedsDetached<D, C>(w: World<D, C>, d: D, c: C)
    requires Linked(w) && d in w.lists && c in w.link
    ensures Linked(Attached(w, d, c)) <==> w.link[c] == None
  {
    var w' := Attached(w, d, c);
    var s := w'.lists[d];
    assert s[0] == c && s[1..] == w.lists[d];
    if w.link[c].Some? {
      var e := w.link[c].value;
      assert c in w.lists[e];
      if e == d {
        var i :| 0 <= i < |w.lists[d]| && w.lists[d][i] == c;
        assert s[i + 1] == c && !Distinct(s);
      } else {
        assert c in w'.lists[e] && w'.link[c] == Some(d);
      }
    }
  }

  /** Detaching keeps them in agreement whatever the callback and dispatcher. */
  lemma DetachKeepsLinked<D, C>(w: World<D, C>, d: D, c: C)
    requires Linked(w) && d in w.lists
    ensures Linked(Detached(w, d, c))
    ensures c in w.link ==> Detached(w, d, c).link[c] != Some(d)
    ensures c !in Detached(w, d, c).lists[d]
  {
    if c in w.lists[d] {
      var w' := Detached(w, d, c);
      WithoutOnce(w.lists[d], c);
      forall e, b | e in w'.lists && b in w'.lists[e] ensures b in w'.link && w'.link[b] == Some(e) {
        assert b in w.lists[e] && w.link[b] == Some(e);
      }
      forall b | b in w'.link && w'.link[b].Some?
        ensures w'.link[b].value in w'.lists && b in w'.lists[w'.link[b].value]
      {
        assert b != c && w'.link[b] == w.link[b];
      }
    }
  }

  lemma DropCallbackKeepsLinked<D, C>(w: World<D, C>, c: C)
    requires Linked(w) && Allowed(w, DropCallback(c))
    ensures Linked(WithoutCallback(w, c))
  {
    if w.link[c].Some? {
      DetachKeepsLinked(w, w.link[c].value, c);
    }
  }

  lemma DropDispatcherKeepsLinked<D, C>(w: World<D, C>, d: D)
    requires Linked(w) && d in w.lists
    ensures Linked(WithoutDispatcher(w, d))
  {
  }

  lemma StepKeepsLinked<D, C>(w: World<D, C>, a: Action<D, C>)
    requires Linked(w) && Allowed(w, a)
    ensures Linked(Apply(w, a))
  {
    match a
    case NewDispatcher(d) =>
    case NewCallback(c) =>
    case Attach(d, c) => AttachNeedsDetached(w, d, c);
    case Detach(d, c) => DetachKeepsLinked(w, d, c);
    case DropDispatcher(d) => DropDispatcherKeepsLinked(w, d);
    case DropCallback(c) => DropCallbackKeepsLinked(w, c);
  }

  // ---- Whole runs ----

  ghost predicate IsRun<D, C>(run: seq<World<D, C>>, acts: seq<Action<D, C>>)
  {
    && |run| == |acts| + 1
    && run[0] == World(map[], map[])
    && forall k :: 0 <= k < |acts| ==> Allowed(run[k], acts[k]) && run[k + 1] == Apply(run[k], acts[k])
  }

  /** One more than the position of the last Attach of c; 0 if there is none. */
  function LastAttach<D, C(==)>(acts: seq<Action<D, C>>, c: C): (k: nat)
    ensures k <= |acts|
  {
    if acts == [] then 0
    else
      var n := |acts| - 1;
      if acts[n].Attach? && acts[n].c == c then n + 1 else LastAttach(acts[..n], c)
  }

  /** A list runs from the most recently attached to the least. */
  ghost predicate NewestFirst<D, C>(s: seq<C>, acts: seq<Action<D, C>>)
  {
    forall i, j :: 0 <= i < j < |s| ==> LastAttach(acts, s[i]) > LastAttach(acts, s[j])
  }

  ghost predicate AllNewestFirst<D, C>(w: World<D, C>, acts: seq<Action<D, C>>)
  {
    forall d :: d in w.lists ==> NewestFirst(w.lists[d], acts)
  }

  lemma SameAttaches<D, C>(s: seq<C>, acts: seq<Action<D, C>>, a: Action<D, C>)
    requires NewestFirst(s, acts) && (a.Attach? ==> a.c !in s)
    ensures NewestFirst(s, acts + [a])
  {
    assert (acts + [a])[..|acts|] == acts;
    assert forall i :: 0 <= i < |s| ==> LastAttach(acts + [a], s[i]) == LastAttach(acts, s[i]);
  }

  lemma FrontIsNewest<D, C>(s: seq<C>, acts: seq<Action<D, C>>, d: D, c: C)
    requires NewestFirst(s, acts) && c !in s
    ensures NewestFirst([c] + s, acts + [Action.Attach(d, c)])
  {
    SameAttaches(s, acts, Action.Attach(d, c));
    var acts' := acts + [Action.Attach(d, c)];
    assert acts'[..|acts|] == acts;
    assert forall i :: 0 <= i < |s| ==> s[i] in s && s[i] != c && LastAttach(acts', s[i]) == LastAttach(acts, s[i]);
    assert LastAttach(acts', c) == |acts| + 1;
    assert ([c] + s)[1..] == s;
  }

  lemma WithoutStaysOrdered<D, C>(s: seq<C>, c: C, acts: seq<Action<D, C>>)
    requires NewestFirst(s, acts) && Distinct(s)
    ensures NewestFirst(if c in s then Without(s, c) else s, acts)
  {
    hide Without, LastAttach, Distinct;
    if c in s {
      WithoutOnce(s, c);
      var i :| 0 <= i < |s| && s[i] == c && Without(s, c) == s[..i] + s[i + 1..];
      OrderedWithoutOne(s, i, acts);
    }
  }

  lemma OrderedWithoutOne<D, C>(s: seq<C>, i: nat, acts: seq<Action<D, C>>)
    requires i < |s| && NewestFirst(s, acts)
    ensures NewestFirst(s[..i] + s[i + 1..], acts)
  {
    hide LastAttach;
    var r := s[..i] + s[i + 1..];
    forall j, k | 0 <= j < k < |r| ensures LastAttach(acts, r[j]) > LastAttach(acts, r[k]) {
      assert r[j] == s[if j < i then j else j + 1];
      assert r[k] == s[if k < i then k else k + 1];
    }
  }

  lemma StepKeepsOrder<D, C>(w: World<D, C>, acts: seq<Action<D, C>>, a: Action<D, C>)
    requires Linked(w) && Allowed(w, a) && AllNewestFirst(w, acts)
    ensures AllNewestFirst(Apply(w, a), acts + [a])
  {
    hide NewestFirst, Distinct;
    var w' := Apply(w, a);
    forall d | d in w'.lists ensures NewestFirst(w'.lists[d], acts + [a]) {
      if d !in w.lists {
        NothingIsOrdered<D, C>(acts + [a]);
      } else {
        var s := w.lists[d];
        match a
        case Attach(e, c) =>
          if d == e {
            FrontIsNewest(s, acts, d, c);
          } else {
            SameAttaches(s, acts, a);
          }
        case Detach(e, c) =>
          WithoutStaysOrdered(s, c, acts);
          SameAttaches(w'.lists[d], acts, a);
        case DropCallback(c) =>
          WithoutStaysOrdered(s, c, acts);
          SameAttaches(w'.lists[d], acts, a);
        case _ =>
          SameAttaches(s, acts, a);
      }
    }
  }

  lemma NothingIsOrdered<D, C>(acts: seq<Action<D, C>>)
    ensures NewestFirst<D, C>([], acts)
  {
  }

  /** Over any run the links agree and every list is in order of attachment. */
  lemma {:induction false} RunsStayLinked<D, C>(run: seq<World<D, C>>, acts: seq<Action<D, C>>, k: nat)
    requires IsRun(run, acts) && k <= |acts|
    ensures Linked(run[k]) && AllNewestFirst(run[k], acts[..k])
  {
    if k > 0 {
      RunsStayLinked(run, acts, k - 1);
      StepKeepsLinked(run[k - 1], acts[k - 1]);
      StepKeepsOrder(run[k - 1], acts[..k - 1], acts[k - 1]);
      assert acts[..k] == acts[..k - 1] + [acts[k - 1]];
      assert run[k] == Apply(run[k - 1], acts[k - 1]);
    }
  }

  // ---- The classes ----

  ghost function View<E>(ds: set<Dispatcher<E>>, cs: set<Callback<E>>): (w: World<Dispatcher<E>, Callback<E>>)
    reads ds, cs
  {
    World(map d | d in ds :: d.m_subscribers, map c | c in cs :: LinkOf(c))
  }

  ghost function LinkOf<E>(c: Callback<E>): (link: Option<Dispatcher<E>>)
    reads c
  {
    if c.m_dispatcher == null then None else Some(c.m_dispatcher)
  }

  function Repeat<E>(e: E, n: nat): (s: seq<E>)
  {
    if n == 0 then [] else Repeat(e, n - 1) + [e]
  }

  /** CallbackBase with an owner that records what it is told and leaves the
      subscriptions alone. */
  class Callback<Event> {
    var m_dispatcher: Dispatcher?<Event>
    var events: seq<Event>
    var deaths: nat

    constructor ()
      ensures m_dispatcher == null && events == [] && deaths == 0
    {
      m_dispatcher, events, deaths := null, [], 0;
    }

    method SetDispatcher(dispatcher: Dispatcher?<Event>)
      modifies `m_dispatcher
      ensures m_dispatcher == dispatcher
    {
      m_dispatcher := dispatcher;
    }

    method Update(event: Event)
      modifies `events
      ensures events == old(events) + [event]
    {
      events := events + [event];
    }

    method StopObserving()
      modifies `deaths
      ensures deaths == old(deaths) + 1
    {
      deaths := deaths + 1;
    }

    /** The destructor, among live dispatchers ds and callbacks cs. */
    method Destroy(ghost ds: set<Dispatcher<Event>>, ghost cs: set<Callback<Event>>)
      requires this in cs && (m_dispatcher != null ==> m_dispatcher in ds)
      modifies `m_dispatcher, if m_dispatcher == null then {} else {m_dispatcher}
      ensures View(ds, cs - {this}) == WithoutCallback(old(View(ds, cs)), this)
    {
      if m_dispatcher != null {
        m_dispatcher.Detach(this, ds, cs);
        var w := View(ds, cs);
        assert View(ds, cs - {this}).link == w.link - {this};
      } else {
        assert View(ds, cs - {this}).link == View(ds, cs).link - {this};
      }
    }
  }

  class Dispatcher<Event> {
    var m_subscribers: seq<Callback<Event>>

    constructor ()
      ensures m_subscribers == []
    {
      m_subscribers := [];
    }

    method Attach(cbb: Callback<Event>, ghost ds: set<Dispatcher<Event>>, ghost cs: set<Callback<Event>>)
      requires this in ds && cbb in cs
      modifies this, cbb`m_dispatcher
      ensures View(ds, cs) == Attached(old(View(ds, cs)), this, cbb)
    {
      cbb.SetDispatcher(this);
      m_subscribers := [cbb] + m_subscribers;
    }

    method Detach(cbb: Callback<Event>, ghost ds: set<Dispatcher<Event>>, ghost cs: set<Callback<Event>>)
      requires this in ds && cbb in cs
      modifies this, cbb`m_dispatcher
      ensures View(ds, cs) == Detached(old(View(ds, cs)), this, cbb)
    {
      var it := 0;
      while it < |m_subscribers|
        invariant 0 <= it <= |m_subscribers|
        invariant cbb !in m_subscribers[..it]
        invariant m_subscribers == old(m_subscribers) && cbb.m_dispatcher == old(cbb.m_dispatcher)
      {
        if m_subscribers[it] == cbb {
          WithoutAt(m_subscribers, cbb, it);
          cbb.SetDispatcher(null);
          m_subscribers := m_subscribers[..it] + m_subscribers[it + 1..];
          return;
        }
        it := it + 1;
      }
    }

    /** Every subscriber hears the event once for each time it is listed;
        heard is the order. */
    method NotifyAll(event: Event) returns (ghost heard: seq<Callback<Event>>)
      modifies m_subscribers`events
      ensures heard == m_subscribers
      ensures forall c :: c in m_subscribers ==>
                c.events == old(c.events) + Repeat(event, multiset(m_subscribers)[c])
    {
      heard := [];
      var it := 0;
      while it < |m_subscribers|
        invariant 0 <= it <= |m_subscribers| && heard == m_subscribers[..it]
        invariant forall c :: c in m_subscribers ==>
                    c.events == old(c.events) + Repeat(event, multiset(m_subscribers[..it])[c])
      {
        var c := m_subscribers[it];
        c.Update(event);
        heard := heard + [c];
        assert m_subscribers[..it + 1] == m_subscribers[..it] + [c];
        it := it + 1;
      }
      assert m_subscribers[..it] == m_subscribers;
    }

    /** The destructor, among live dispatchers ds and callbacks cs. */
    method Destroy(ghost ds: set<Dispatcher<Event>>, ghost cs: set<Callback<Event>>)
      requires this in ds && forall c :: c in m_subscribers ==> c in cs
      modifies m_subscribers`m_dispatcher, m_subscribers`deaths
      ensures View(ds - {this}, cs) == WithoutDispatcher(old(View(ds, cs)), this)
      ensures forall c :: c in m_subscribers ==> c.deaths == old(c.deaths) + multiset(m_subscribers)[c]
    {
      var it := 0;
      while it < |m_subscribers|
        invariant 0 <= it <= |m_subscribers|
        invariant forall c :: c in cs ==>
                    c.m_dispatcher == if c in m_subscribers[..it] then null else old(c.m_dispatcher)
        invariant forall c :: c in m_subscribers ==> c.deaths == old(c.deaths) + multiset(m_subscribers[..it])[c]
      {
        var c := m_subscribers[it];
        c.StopObserving();
        c.SetDispatcher(null);
        assert m_subscribers[..it + 1] == m_subscribers[..it] + [c];
        it := it + 1;
      }
      assert m_subscribers[..it] == m_subscribers;
    }
  }

  /** Where the links agree, a subscriber is listed once: it hears each event
      once and the dispatcher's death once. */
  lemma LinkedMeansOnce<D, C>(w: World<D, C>, d: D, c: C)
    requires Linked(w) && d in w.lists && c in w.lists[d]
    ensures multiset(w.lists[d])[c] == 1
  {
    DistinctMeansOnce(w.lists[d], c);
  }

  lemma DistinctMeansOnce<C>(s: seq<C>, c: C)
    requires Distinct(s) && c in s
    ensures multiset(s)[c] == 1
  {
    var i :| 0 <= i < |s| && s[i] == c;
    assert s == s[..i] + [c] + s[i + 1..];
    assert c !in s[..i] && c !in s[i + 1..];
  }
}
