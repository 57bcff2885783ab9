/** Organizer applications and the organizers their approval creates. */
module Organizers {
  import opened Prelude
  import Slug
  import Text

  datatype Status = Pending | Approved | Rejected

  /** Both tables are kept in creation order. */
  datatype Application = Application(user: nat, name: string, slug: string, status: Status)

  datatype Organizer = Organizer(owner: nat, name: string, slug: string)

  datatype Outcome = Done | Invalid | AlreadyPending | NotPending | SlugTaken

  /** The user's newest application among the first n. */
  function Latest(applications: seq<Application>, user: nat, n: nat): Option<nat>
    requires n <= |applications|
  {
    if n == 0 then None
    else if applications[n - 1].user == user then Some(n - 1)
    else Latest(applications, user, n - 1)
  }

  predicate HasPending(applications: seq<Application>, user: nat) {
    var latest := Latest(applications, user, |applications|);
    latest.Some? && latest.value < |applications| && applications[latest.value].status.Pending?
  }

  predicate Taken(organizers: seq<Organizer>, slug: string) {
    exists k :: 0 <= k < |organizers| && organizers[k].slug == slug
  }

  function Applied(user: nat, name: string, slug: string): Application {
    Application(user, Text.TrimSpace(name), Slug.Slugify(Slug.FirstNonEmpty(slug, name)), Pending)
  }

  function Made(a: Application): Organizer { Organizer(a.user, a.name, Slug.Slugify(a.slug)) }

  predicate Open(applications: seq<Application>, id: nat) {
    id < |applications| && applications[id].status.Pending?
  }

  class Store {
    var applications: seq<Application>
    var organizers: seq<Organizer>

    constructor ()
      ensures applications == [] && organizers == []
    {
      applications, organizers := [], [];
    }

    method LatestOf(user: nat) returns (found: Option<nat>)
      ensures found == Latest(applications, user, |applications|)
      ensures found.Some? ==> found.value < |applications|
    {
      var i := |applications|;
      while i > 0
        invariant 0 <= i <= |applications|
        invariant Latest(applications, user, |applications|) == Latest(applications, user, i)
      {
        i := i - 1;
        if applications[i].user == user {
          return Some(i);
        }
      }
      return None;
    }

    /** `valid` is the verdict of the field checks. */
    method Apply(user: nat, name: string, slug: string, valid: bool) returns (outcome: Outcome)
      modifies this`applications
      ensures outcome == if !valid then Invalid else if HasPending(old(applications), user) then AlreadyPending else Done
      ensures applications == old(applications) + if outcome.Done? then [Applied(user, name, slug)] else []
    {
      if !valid {
        return Invalid;
      }
      var existing := LatestOf(user);
      if existing.Some? && applications[existing.value].status.Pending? {
        return AlreadyPending;
      }
      applications := applications + [Application(user, Text.TrimSpace(name), Slug.Slugify(Slug.FirstNonEmpty(slug, name)), Pending)];
      return Done;
    }

    /** organizers.slug is unique. */
    method CreateOrganizer(o: Organizer) returns (ok: bool)
      modifies this`organizers
      ensures ok == !Taken(old(organizers), o.slug)
      ensures organizers == old(organizers) + if ok then [o] else []
    {
      for i := 0 to |organizers|
        invariant organizers == old(organizers)
        invariant forall k :: 0 <= k < i ==> organizers[k].slug != o.slug
      {
        if organizers[i].slug == o.slug {
          return false;
        }
      }
      organizers := organizers + [o];
      return true;
    }

    /** In the request transaction: a failed insert takes the review back. */
    method Approve(id: nat) returns (outcome: Outcome)
      modifies this
      ensures outcome == if !Open(old(applications), id) then NotPending
                         else if Taken(old(organizers), Made(old(applications)[id]).slug) then SlugTaken else Done
      ensures !outcome.Done? ==> applications == old(applications) && organizers == old(organizers)
      ensures outcome.Done? ==>
                && applications == old(applications)[id := old(applications)[id].(status := Approved)]
                && organizers == old(organizers) + [Made(old(applications)[id])]
    {
      if id >= |applications| || !applications[id].status.Pending? {
        return NotPending;
      }
      var before := applications;
      applications := applications[id := applications[id].(status := Approved)];
      var app := applications[id];
      var ok := CreateOrganizer(Organizer(app.user, app.name, Slug.Slugify(app.slug)));
      if !ok {
        applications := before;
        return SlugTaken;
      }
      return Done;
    }

    method Reject(id: nat) returns (outcome: Outcome)
      modifies this`applications
      ensures outcome == if Open(old(applications), id) then Done else NotPending
      ensures applications == if outcome.Done? then old(applications)[id := old(applications)[id].(status := Rejected)]
                              else old(applications)
    {
      if id >= |applications| || !applications[id].status.Pending? {
        return NotPending;
      }
      applications := applications[id := applications[id].(status := Rejected)];
      return Done;
    }
  }

  // ---- runs --------------------------------------------------------------------------------

  datatype Event =
    | Applying(user: nat, name: string, slug: string, valid: bool)
    | Approving(id: nat)
    | Rejecting(id: nat)

  /** The tables, and the application each organizer was made from. */
  datatype World = World(applications: seq<Application>, organizers: seq<Organizer>, from: seq<nat>)

  const EMPTY := World([], [], [])

  function Step(w: World, e: Event): World {
    match e
    case Applying(user, name, slug, valid) =>
      if !valid || HasPending(w.applications, user) then w
      else w.(applications := w.applications + [Applied(user, name, slug)])
    case Approving(id) =>
      if !Open(w.applications, id) || Taken(w.organizers, Made(w.applications[id]).slug) then w
      else World(w.applications[id := w.applications[id].(status := Approved)],
                 w.organizers + [Made(w.applications[id])], w.from + [id])
    case Rejecting(id) =>
      if !Open(w.applications, id) then w
      else w.(applications := w.applications[id := w.applications[id].(status := Rejected)])
  }

  function Run(w: World, events: seq<Event>): World {
    if events == [] then w else Step(Run(w, events[..|events| - 1]), events[|events| - 1])
  }

  /** Organizers are the approved applications, one each, under the slug applied for; no two
      have the same slug. */
  ghost predicate Matched(w: World) {
    && |w.from| == |w.organizers|
    && (forall k :: 0 <= k < |w.from| ==>
          && w.from[k] < |w.applications|
          && w.applications[w.from[k]].status.Approved?
          && w.organizers[k] == Organizer(w.applications[w.from[k]].user, w.applications[w.from[k]].name,
                                          w.applications[w.from[k]].slug))
    && (forall i :: 0 <= i < |w.applications| && w.applications[i].status.Approved? ==> i in w.from)
    && (forall k, l :: 0 <= k < l < |w.organizers| ==> w.organizers[k].slug != w.organizers[l].slug)
  }

  ghost predicate AllNormal(applications: seq<Application>) {
    forall i :: 0 <= i < |applications| ==> Slug.Normal(applications[i].slug)
  }

  /** A pending application is its user's newest. */
  ghost predicate OnePending(applications: seq<Application>) {
    forall i, j :: 0 <= i < j < |applications| && applications[i].user == applications[j].user ==>
      !applications[i].status.Pending?
  }

  lemma {:induction false} LatestIs(applications: seq<Application>, user: nat, n: nat)
    requires n <= |applications|
    ensures var l := Latest(applications, user, n);
            && (l.Some? ==> l.value < n && applications[l.value].user == user)
            && (forall i :: 0 <= i < n && applications[i].user == user ==> l.Some? && i <= l.value)
  {
    if n > 0 {
      LatestIs(applications, user, n - 1);
    }
  }

  lemma ApplyKeeps(w: World, e: Event)
    requires Matched(w) && AllNormal(w.applications) && OnePending(w.applications) && e.Applying?
    ensures var end := Step(w, e); Matched(end) && AllNormal(end.applications) && OnePending(end.applications)
  {
    LatestIs(w.applications, e.user, |w.applications|);
    Slug.FixedPointIff(Slug.FirstNonEmpty(e.slug, e.name));
  }

  /** An application is refused when a field is wrong or the user has one pending, and stored
      otherwise: the user's, with the trimmed name, under its slug, pending. */
  lemma ApplyIs(w: World, user: nat, name: string, slug: string, valid: bool)
    requires OnePending(w.applications)
    ensures
      var after := Step(w, Applying(user, name, slug, valid));
      var pending := exists i :: 0 <= i < |w.applications| && w.applications[i].user == user && w.applications[i].status.Pending?;
      var source := if forall i :: 0 <= i < |slug| ==> Text.IsSpace(slug[i]) then name else slug;
      if !valid || pending then after == w
      else after == w.(applications := w.applications + [Application(user, Text.TrimSpace(name), Slug.Slugify(source), Pending)])
  {
    LatestIs(w.applications, user, |w.applications|);
    Slug.RequestedSlug(slug, name);
  }

  /** A rejection ends a pending application, and over every run a reviewed one stays as it is. */
  lemma {:induction false} ReviewIsFinal(w: World, events: seq<Event>, id: nat)
    requires id < |w.applications|
    ensures Step(w, Rejecting(id)) == w.(applications := w.applications[id := Step(w, Rejecting(id)).applications[id]])
    ensures Step(w, Rejecting(id)).applications[id]
            == if w.applications[id].status.Pending? then w.applications[id].(status := Rejected) else w.applications[id]
    ensures id < |Run(w, events).applications|
    ensures !w.applications[id].status.Pending? ==> Run(w, events).applications[id] == w.applications[id]
  {
    if events != [] {
      ReviewIsFinal(w, events[..|events| - 1], id);
    }
  }

  lemma ReviewKeeps(w: World, e: Event)
    requires Matched(w) && AllNormal(w.applications) && OnePending(w.applications) && !e.Applying?
    ensures var end := Step(w, e); Matched(end) && AllNormal(end.applications) && OnePending(end.applications)
  {
    if Open(w.applications, e.id) {
      Slug.FixedPointIff(w.applications[e.id].slug);
      var end := Step(w, e);
      forall i | 0 <= i < |end.applications| && end.applications[i].status.Approved? ensures i in end.from {
        if i == e.id {
          assert end.from[|w.from|] == i;
        } else {
          assert i in w.from;
        }
      }
    }
  }

  /** Over any run of applications and reviews: the organizers are exactly the approved
      applications, one each, owned by the applicant under the slug stored at application;
      every slug is in normal form and no user has two pending applications. */
  lemma {:induction false} SlugsAgree(events: seq<Event>)
    ensures var w := Run(EMPTY, events);
            Matched(w) && AllNormal(w.applications) && OnePending(w.applications)
  {
    if events != [] {
      SlugsAgree(events[..|events| - 1]);
      var mid, e := Run(EMPTY, events[..|events| - 1]), events[|events| - 1];
      if e.Applying? {
        ApplyKeeps(mid, e);
      } else {
        ReviewKeeps(mid, e);
      }
    }
  }

  /** A pending application can be approved exactly when no approved one has its slug: of the
      applicants whose names leave the same slug, or none at all, only the first gets through. */
  lemma ApprovableIff(events: seq<Event>, id: nat)
    requires Open(Run(EMPTY, events).applications, id)
    ensures
      var w := Run(EMPTY, events);
      Step(w, Approving(id)) == w
      <==> exists i :: 0 <= i < |w.applications| && w.applications[i].status.Approved?
                       && w.applications[i].slug == w.applications[id].slug
  {
    var w := Run(EMPTY, events);
    SlugsAgree(events);
    Slug.FixedPointIff(w.applications[id].slug);
    if Taken(w.organizers, w.applications[id].slug) {
      var k :| 0 <= k < |w.organizers| && w.organizers[k].slug == w.applications[id].slug;
      assert w.applications[w.from[k]].status.Approved?;
    } else {
      assert Step(w, Approving(id)).applications[id].status.Approved?;
      forall i | 0 <= i < |w.applications| && w.applications[i].status.Approved?
        ensures w.applications[i].slug != w.applications[id].slug
      {
        assert i in w.from;
      }
    }
  }
}
