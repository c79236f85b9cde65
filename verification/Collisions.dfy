/** The collision check of activities, and the calendar that the views keep with it.

    Times are integers. `activities` and `participations` stand for the tables of
    activities and of "participates in" relations.
  */
module Collisions {
  import opened Options

  datatype FloatingType = Narrow | FloatingTime | Floating

  datatype Activity = Activity(
    start: Option<int>,
    end: Option<int>,
    floatingType: FloatingType,
    busy: bool,
    isDeleted: bool)

  datatype Db = Db(activities: map<int, Activity>, participations: set<(int, int)>)

  datatype Collision = Collision(participant: int, activity: int)

  // ------------------------------------------------------------ the check

  /** ~(Q(end__lte=start) | Q(start__gte=end)); a null column satisfies neither lookup. */
  predicate CollisionTest(a: Activity, start: int, end: int) {
    !((a.end.Some? && a.end.value <= start) || (a.start.Some? && a.start.value >= end))
  }

  predicate Collides(db: Db, participant: int, start: int, end: int, busy: bool, exclude: Option<int>, id: int) {
    && id in db.activities
    && (participant, id) in db.participations
    && exclude != Some(id)
    && CollisionTest(db.activities[id], start, end)
    && !db.activities[id].isDeleted
    && !db.activities[id].floatingType.Floating?
    && (busy || db.activities[id].busy)
  }

  function CollidingActivities(db: Db, participant: int, start: int, end: int, busy: bool, exclude: Option<int>)
    : (ids: set<int>)
    ensures forall id :: id in ids <==> Collides(db, participant, start, end, busy, exclude, id)
  {
    set id | id in db.activities && Collides(db, participant, start, end, busy, exclude, id)
  }

  /** The participants, in order, who have a colliding activity. */
  function Hindered(db: Db, start: int, end: int, participants: seq<int>, busy: bool, exclude: Option<int>): seq<int> {
    if participants == [] then
      []
    else
      var n := |participants| - 1;
      var before := Hindered(db, start, end, participants[..n], busy, exclude);
      if CollidingActivities(db, participants[n], start, end, busy, exclude) == {} then
        before
      else
        before + [participants[n]]
  }

  method CheckActivityCollisions(
    db: Db,
    activityStart: Option<int>,
    activityEnd: Option<int>,
    participants: seq<int>,
    busy: bool := true,
    excludeActivityId: Option<int> := None
  ) returns (r: Option<seq<Collision>>)
    requires activityStart.Some? ==> activityEnd.Some?
    ensures r.None? <==> activityStart.None?
    ensures r.Some? ==> (r.value == [] <==> forall p :: p in participants ==>
              CollidingActivities(db, p, activityStart.value, activityEnd.value, busy, excludeActivityId) == {})
    ensures r.Some? ==>
              var start, end, found := activityStart.value, activityEnd.value, r.value;
              var hindered := Hindered(db, start, end, participants, busy, excludeActivityId);
              && |found| == |hindered|
              && forall i :: 0 <= i < |found| ==>
                   && found[i].participant == hindered[i]
                   && found[i].activity in CollidingActivities(db, hindered[i], start, end, busy, excludeActivityId)
  {
    if activityStart.None? {
      return None;
    }
    var start, end := activityStart.value, activityEnd.value;
    var collisions: seq<Collision> := [];
    for n := 0 to |participants|
      invariant var hindered := Hindered(db, start, end, participants[..n], busy, excludeActivityId);
                && |collisions| == |hindered|
                && forall i :: 0 <= i < |collisions| ==>
                     && collisions[i].participant == hindered[i]
                     && collisions[i].activity in CollidingActivities(db, hindered[i], start, end, busy,
                         excludeActivityId)
    {
      assert participants[..n + 1][..n] == participants[..n];
      var colliding := CollidingActivities(db, participants[n], start, end, busy, excludeActivityId);
      if colliding != {} {
        var first :| first in colliding;
        collisions := collisions + [Collision(participants[n], first)];
      }
    }
    assert participants[..|participants|] == participants;
    NobodyHindered(db, start, end, participants, busy, excludeActivityId);
    r := Some(collisions);
  }

  lemma {:induction false} NobodyHindered(db: Db, start: int, end: int, participants: seq<int>, busy: bool,
      exclude: Option<int>)
    ensures Hindered(db, start, end, participants, busy, exclude) == []
       <==> forall p :: p in participants ==> CollidingActivities(db, p, start, end, busy, exclude) == {}
  {
    if participants != [] {
      NobodyHindered(db, start, end, participants[..|participants| - 1], busy, exclude);
      assert forall p :: p in participants <==>
          p in participants[..|participants| - 1] || p == participants[|participants| - 1];
    }
  }

  /** An activity is found for a participant by these tests and no others. */
  lemma CollidesMeans(db: Db, p: int, start: int, end: int, busy: bool, exclude: Option<int>, id: int)
    requires id in db.activities && db.activities[id].start.Some? && db.activities[id].end.Some?
    ensures var a := db.activities[id];
            id in CollidingActivities(db, p, start, end, busy, exclude)
            <==> && (p, id) in db.participations && exclude != Some(id)
                 && a.end.value > start && a.start.value < end
                 && !a.isDeleted && a.floatingType in {Narrow, FloatingTime}
                 && (busy || a.busy)
  {
  }

  /** `at` lists, in order, the places in `participants` of those who have a colliding activity. */
  ghost predicate AreHinderedAt(db: Db, start: int, end: int, participants: seq<int>, busy: bool, exclude: Option<int>,
      at: seq<int>)
  {
    && (forall i, j :: 0 <= i < j < |at| ==> at[i] < at[j])
    && (forall i :: 0 <= i < |at| ==> 0 <= at[i] < |participants|)
    && forall k :: 0 <= k < |participants| ==>
         (k in at <==> exists id :: Collides(db, participants[k], start, end, busy, exclude, id))
  }

  lemma HinderedAtNext(db: Db, start: int, end: int, participants: seq<int>, busy: bool, exclude: Option<int>,
      at: seq<int>)
    requires participants != []
    requires AreHinderedAt(db, start, end, participants[..|participants| - 1], busy, exclude, at)
    ensures var n := |participants| - 1;
            var hindered := exists id :: Collides(db, participants[n], start, end, busy, exclude, id);
            AreHinderedAt(db, start, end, participants, busy, exclude, if hindered then at + [n] else at)
  {
    var n := |participants| - 1;
    assert forall k :: 0 <= k < n ==> participants[..n][k] == participants[k];
    assert forall k :: k in at + [n] <==> k in at || k == n;
    assert forall i :: 0 <= i < |at| ==> at[i] in at;
  }

  lemma HinderedMeans(db: Db, p: int, start: int, end: int, busy: bool, exclude: Option<int>)
    ensures CollidingActivities(db, p, start, end, busy, exclude) != {}
       <==> exists id :: Collides(db, p, start, end, busy, exclude, id)
  {
    var ids := CollidingActivities(db, p, start, end, busy, exclude);
    if id :| Collides(db, p, start, end, busy, exclude, id) {
      assert id in ids;
    } else {
      assert forall id :: id !in ids;
      assert ids == {};
    }
  }

  lemma HinderedNext(db: Db, start: int, end: int, participants: seq<int>, busy: bool, exclude: Option<int>)
    requires participants != []
    ensures var n := |participants| - 1;
            var hindered := exists id :: Collides(db, participants[n], start, end, busy, exclude, id);
            Hindered(db, start, end, participants, busy, exclude)
            == Hindered(db, start, end, participants[..n], busy, exclude)
               + if hindered then [participants[n]] else []
  {
    HinderedMeans(db, participants[|participants| - 1], start, end, busy, exclude);
  }

  function Picked(participants: seq<int>, at: seq<int>): seq<int>
    requires forall i :: 0 <= i < |at| ==> 0 <= at[i] < |participants|
  {
    seq(|at|, i requires 0 <= i < |at| => participants[at[i]])
  }

  lemma PickedNext(participants: seq<int>, at: seq<int>)
    requires participants != []
    requires forall i :: 0 <= i < |at| ==> 0 <= at[i] < |participants| - 1
    ensures var n := |participants| - 1;
            && Picked(participants, at) == Picked(participants[..n], at)
            && Picked(participants, at + [n]) == Picked(participants[..n], at) + [participants[n]]
  {
  }

  /** Those who are reported are exactly the participants with a colliding activity, in the
      order of the list and as often as they stand there. */
  lemma {:induction false} HinderedAt(db: Db, start: int, end: int, participants: seq<int>, busy: bool,
      exclude: Option<int>)
    returns (at: seq<int>)
    ensures AreHinderedAt(db, start, end, participants, busy, exclude, at)
    ensures Hindered(db, start, end, participants, busy, exclude) == Picked(participants, at)
  {
    at := [];
    if participants != [] {
      var n := |participants| - 1;
      at := HinderedAt(db, start, end, participants[..n], busy, exclude);
      PickedNext(participants, at);
      HinderedAtNext(db, start, end, participants, busy, exclude, at);
      HinderedNext(db, start, end, participants, busy, exclude);
      if exists id :: Collides(db, participants[n], start, end, busy, exclude, id) {
        at := at + [n];
      }
    }
  }

  // ------------------------------------------------------------ conflicts

  predicate Live(a: Activity) {
    !a.isDeleted && !a.floatingType.Floating?
  }

  /** What the forms guarantee: all but floating activities have dates. */
  predicate WellFormed(a: Activity) {
    if a.floatingType.Floating? then a.start.None? else a.start.Some? && a.end.Some?
  }

  /** Two activities that nobody can take part in both of. */
  predicate Conflict(a: Activity, b: Activity)
    requires WellFormed(a) && WellFormed(b)
  {
    && Live(a) && Live(b)
    && (a.busy || b.busy)
    && a.start.value < b.end.value
    && b.start.value < a.end.value
  }

  lemma ConflictIsSymmetric(a: Activity, b: Activity)
    requires WellFormed(a) && WellFormed(b)
    ensures Conflict(a, b) <==> Conflict(b, a)
  {
  }

  ghost predicate Participate(db: Db, p: int, i: int) {
    i in db.activities && (p, i) in db.participations
  }

  ghost predicate ValidDb(db: Db) {
    forall i :: i in db.activities ==> WellFormed(db.activities[i])
  }

  /** Nobody takes part in two conflicting activities. */
  ghost predicate ConflictFree(db: Db)
    requires ValidDb(db)
  {
    forall p, i, j :: Participate(db, p, i) && Participate(db, p, j) && i != j ==>
        !Conflict(db.activities[i], db.activities[j])
  }

  /** Nobody among `participants` takes part in an activity, other than the excluded one, that
      conflicts with `a`. */
  ghost predicate Clear(db: Db, a: Activity, participants: set<int>, exclude: Option<int>)
    requires ValidDb(db) && WellFormed(a)
  {
    forall p, i :: p in participants && Participate(db, p, i) && exclude != Some(i) ==>
        !Conflict(a, db.activities[i])
  }

  /** The check of an activity finds nobody; one without a start is not checked. */
  predicate Passes(db: Db, a: Activity, participants: set<int>, exclude: Option<int>) {
    a.start.None? || a.end.None? || forall p :: p in participants ==>
        CollidingActivities(db, p, a.start.value, a.end.value, a.busy, exclude) == {}
  }

  /** The check finds nobody exactly when no participant has another activity that conflicts
      with one of those dates and that busy flag. */
  lemma CheckIsExact(db: Db, a: Activity, participants: seq<int>, exclude: Option<int>)
    requires ValidDb(db) && WellFormed(a) && Live(a)
    ensures Hindered(db, a.start.value, a.end.value, participants, a.busy, exclude) == []
       <==> Clear(db, a, (set p | p in participants), exclude)
  {
    NobodyHindered(db, a.start.value, a.end.value, participants, a.busy, exclude);
    PassesIsExact(db, a, (set p | p in participants), exclude);
  }

  lemma PassesIsExact(db: Db, a: Activity, participants: set<int>, exclude: Option<int>)
    requires ValidDb(db) && WellFormed(a) && !a.isDeleted
    ensures Passes(db, a, participants, exclude) <==> Clear(db, a, participants, exclude)
  {
    if a.start.Some? {
      forall p, i | Participate(db, p, i) && exclude != Some(i)
        ensures i in CollidingActivities(db, p, a.start.value, a.end.value, a.busy, exclude)
           <==> Conflict(a, db.activities[i])
      {
      }
      forall p | forall i :: Participate(db, p, i) && exclude != Some(i) ==> !Conflict(a, db.activities[i])
        ensures CollidingActivities(db, p, a.start.value, a.end.value, a.busy, exclude) == {}
      {
        assert forall i :: i in CollidingActivities(db, p, a.start.value, a.end.value, a.busy, exclude) ==>
            Participate(db, p, i);
      }
    }
  }

  // ------------------------------------------------------------ writing one activity

  function Participants(db: Db, id: int): (ps: set<int>)
    ensures forall p :: p in ps <==> (p, id) in db.participations
  {
    set pair | pair in db.participations && pair.1 == id :: pair.0
  }

  /** The database with this row and these participants for one activity. */
  function Written(db: Db, id: int, a: Activity, participants: set<int>): Db {
    Db(db.activities[id := a],
       (set pair | pair in db.participations && pair.1 != id) + set p | p in participants :: (p, id))
  }

  lemma WrittenParticipate(db: Db, id: int, a: Activity, participants: set<int>, p: int, i: int)
    ensures Participate(Written(db, id, a, participants), p, i)
       <==> if i == id then p in participants else Participate(db, p, i)
  {
  }

  /** A write leaves nobody with a conflict exactly when no participant it leaves has another
      activity that conflicts with the row. */
  lemma WriteIsSafe(db: Db, id: int, a: Activity, participants: set<int>)
    requires ValidDb(db) && ConflictFree(db) && WellFormed(a)
    ensures ValidDb(Written(db, id, a, participants))
    ensures ConflictFree(Written(db, id, a, participants)) <==> Clear(db, a, participants, Some(id))
  {
    var after := Written(db, id, a, participants);
    forall p, i
      ensures Participate(after, p, i) <==> if i == id then p in participants else Participate(db, p, i)
    {
      WrittenParticipate(db, id, a, participants, p, i);
    }
    if Clear(db, a, participants, Some(id)) {
      forall p, i, j | Participate(after, p, i) && Participate(after, p, j) && i != j
        ensures !Conflict(after.activities[i], after.activities[j])
      {
        if j == id {
          ConflictIsSymmetric(a, after.activities[i]);
        }
      }
    } else {
      var p, i :| p in participants && Participate(db, p, i) && Some(id) != Some(i) && Conflict(a, db.activities[i]);
      assert Participate(after, p, id) && Participate(after, p, i);
    }
  }

  // ------------------------------------------------------------ requests of users

  /** What a user asks for, with the dates a form has cleaned.

      The first six are the requests of the activities' own views. `EditForTask` is the form of
      an activity that belongs to a project task and has a `resource`, and `Reassign` replaces
      the resource of a task in one of its activities. `Import` is one line of a mass import; the
      buttons that record a phone call write like the import of a new activity. */
  datatype Request =
    | Create(id: int, activity: Activity, participants: set<int>)
    | Edit(id: int, activity: Activity)
    | Move(id: int, start: int, end: int)
    | AddParticipants(id: int, participants: set<int>)
    | RemoveParticipant(id: int, participant: int)
    | Trash(id: int)
    | EditForTask(id: int, activity: Activity, former: int, resource: int, keep: bool)
    | Reassign(id: int, former: int, resource: int, keep: bool)
    | Import(id: int, activity: Activity, participants: set<int>)

  ghost predicate IsNew(db: Db, id: int) {
    id !in db.activities && forall p :: (p, id) !in db.participations
  }

  /** The request fits the database. Forms keep the trash flag, and a former resource that is
      taken out must be a participant. */
  ghost predicate Possible(db: Db, request: Request) {
    match request
    case Create(id, a, _) => IsNew(db, id) && WellFormed(a) && !a.isDeleted
    case Edit(id, a) => id in db.activities && WellFormed(a) && a.isDeleted == db.activities[id].isDeleted
    case EditForTask(id, a, former, resource, keep) =>
      && id in db.activities && WellFormed(a) && a.isDeleted == db.activities[id].isDeleted
      && (former == resource || keep || former in Participants(db, id))
    case Import(id, a, _) =>
      && WellFormed(a)
      && if id in db.activities then a.isDeleted == db.activities[id].isDeleted else IsNew(db, id) && !a.isDeleted
    case _ => request.id in db.activities
  }

  function NewRow(db: Db, request: Request): Activity
    requires Possible(db, request)
  {
    match request
    case Create(_, a, _) => a
    case Edit(_, a) => a
    case Move(id, start, end) =>
      var before := db.activities[id];
      before.(
        floatingType := if before.floatingType.Floating? then Narrow else before.floatingType,
        start := Some(start),
        end := Some(end))
    case Trash(id) => db.activities[id].(isDeleted := true)
    case EditForTask(_, a, _, _, _) => a
    case Import(_, a, _) => a
    case _ => db.activities[request.id]
  }

  function Replaced(participants: set<int>, former: int, resource: int, keep: bool): set<int> {
    if former == resource then participants
    else (if keep then participants else participants - {former}) + {resource}
  }

  function NewParticipants(db: Db, request: Request): set<int> {
    var before := Participants(db, request.id);
    match request
    case Create(_, _, participants) => participants
    case AddParticipants(_, participants) => before + participants
    case RemoveParticipant(_, participant) => before - {participant}
    case EditForTask(_, _, former, resource, keep) => Replaced(before, former, resource, keep)
    case Reassign(_, former, resource, keep) => Replaced(before, former, resource, keep)
    case Import(_, _, participants) => before + participants
    case _ => before
  }

  /** The participants that the collision check is asked about. */
  function Checked(db: Db, request: Request): set<int> {
    match request
    case Create(_, _, participants) => participants
    case Edit(id, _) => Participants(db, id)
    case Move(id, _, _) => Participants(db, id)
    case AddParticipants(_, participants) => participants
    case EditForTask(_, _, _, resource, _) => {resource}
    case _ => {}
  }

  /** The calendar that the request asks for, conflicts or not. */
  function Wished(db: Db, request: Request): Db
    requires Possible(db, request)
  {
    Written(db, request.id, NewRow(db, request), NewParticipants(db, request))
  }

  lemma NewRowIsWellFormed(db: Db, request: Request)
    requires ValidDb(db) && Possible(db, request)
    ensures WellFormed(NewRow(db, request))
  {
  }

  /** The calendar after a request. */
  ghost function Handle(db: Db, request: Request): Db {
    var exclude := if request.Create? then None else Some(request.id);
    if Possible(db, request) && Passes(db, NewRow(db, request), Checked(db, request), exclude) then
      Wished(db, request)
    else
      db
  }

  // ------------------------------------------------------------ which requests are safe

  /** The participants that get this row without having been checked for it. */
  function Unchecked(db: Db, request: Request): set<int> {
    match request
    case EditForTask(_, _, _, resource, _) => NewParticipants(db, request) - {resource}
    case Reassign(_, former, resource, _) => if former == resource then {} else {resource}
    case Import(_, _, _) => NewParticipants(db, request)
    case _ => {}
  }

  /** The check would have passed for those that were not asked about as well. */
  predicate Harmless(db: Db, request: Request)
    requires Possible(db, request)
  {
    NewRow(db, request).isDeleted || Passes(db, NewRow(db, request), Unchecked(db, request), Some(request.id))
  }

  /** The participants of a row that stays as it is have nothing that conflicts with it. */
  lemma OldParticipantsAreClear(db: Db, id: int)
    requires ValidDb(db) && ConflictFree(db) && id in db.activities
    ensures Clear(db, db.activities[id], Participants(db, id), Some(id))
  {
    assert forall p :: p in Participants(db, id) ==> Participate(db, p, id);
  }

  /** Who takes part in the end was checked, was not checked, or took part in the same row. */
  lemma ParticipantsInParts(db: Db, request: Request)
    requires Possible(db, request)
    ensures Unchecked(db, request) <= NewParticipants(db, request)
    ensures !request.EditForTask? ==> Checked(db, request) <= NewParticipants(db, request)
    ensures forall p :: p in NewParticipants(db, request) ==>
              || p in Checked(db, request)
              || p in Unchecked(db, request)
              || (&& p in Participants(db, request.id) && request.id in db.activities
                  && (NewRow(db, request) == db.activities[request.id] || request.Trash?))
  {
  }

  /** Who has been checked and who has not is all that matters. */
  lemma ClearInParts(db: Db, request: Request)
    requires ValidDb(db) && ConflictFree(db) && Possible(db, request)
    requires WellFormed(NewRow(db, request)) && !NewRow(db, request).isDeleted
    ensures Clear(db, NewRow(db, request), NewParticipants(db, request), Some(request.id)) ==>
              Clear(db, NewRow(db, request), Unchecked(db, request), Some(request.id))
    ensures Clear(db, NewRow(db, request), NewParticipants(db, request), Some(request.id)) && !request.EditForTask? ==>
              Clear(db, NewRow(db, request), Checked(db, request), Some(request.id))
    ensures Clear(db, NewRow(db, request), Checked(db, request), Some(request.id)) &&
            Clear(db, NewRow(db, request), Unchecked(db, request), Some(request.id)) ==>
              Clear(db, NewRow(db, request), NewParticipants(db, request), Some(request.id))
  {
    var id, a := request.id, NewRow(db, request);
    ParticipantsInParts(db, request);
    if id in db.activities && a == db.activities[id] {
      OldParticipantsAreClear(db, id);
    }
  }

  lemma TrashIsClear(db: Db, a: Activity, participants: set<int>, exclude: Option<int>)
    requires ValidDb(db) && WellFormed(a) && a.isDeleted
    ensures Clear(db, a, participants, exclude)
  {
  }

  /** A new activity is nobody's yet. */
  lemma NothingToExclude(db: Db, a: Activity, participants: set<int>, id: int)
    requires ValidDb(db) && WellFormed(a) && id !in db.activities
    ensures Clear(db, a, participants, None) <==> Clear(db, a, participants, Some(id))
  {
  }

  /** A request that is carried out leaves nobody with a conflict exactly when it is harmless
      to those who were not checked. */
  lemma HandleKeepsConflictFree(db: Db, request: Request)
    requires ValidDb(db) && ConflictFree(db)
    ensures ValidDb(Handle(db, request))
    ensures ConflictFree(Handle(db, request))
       <==> (Possible(db, request) && Handle(db, request) == Wished(db, request) ==> Harmless(db, request))
  {
    if Possible(db, request) {
      var id, a := request.id, NewRow(db, request);
      NewRowIsWellFormed(db, request);
      WriteIsSafe(db, id, a, NewParticipants(db, request));
      if a.isDeleted {
        TrashIsClear(db, a, NewParticipants(db, request), Some(id));
      } else {
        ClearInParts(db, request);
        PassesIsExact(db, a, Unchecked(db, request), Some(id));
        PassesIsExact(db, a, Checked(db, request), if request.Create? then None else Some(id));
        if request.Create? {
          NothingToExclude(db, a, Checked(db, request), id);
        }
      }
    }
  }

  /** The activities' own views ask about everyone who gets a row. */
  predicate FromOwnViews(request: Request) {
    !request.EditForTask? && !request.Reassign? && !request.Import?
  }

  /** They carry out exactly the requests that leave nobody with a conflict. */
  lemma HandlesExactly(db: Db, request: Request)
    requires ValidDb(db) && ConflictFree(db)
    requires FromOwnViews(request) && Possible(db, request)
    requires NewRow(db, request).isDeleted ==> request.Trash?
    ensures ValidDb(Wished(db, request))
    ensures Handle(db, request) == if ConflictFree(Wished(db, request)) then Wished(db, request) else db
  {
    var id, a := request.id, NewRow(db, request);
    NewRowIsWellFormed(db, request);
    WriteIsSafe(db, id, a, NewParticipants(db, request));
    HandleKeepsConflictFree(db, request);
    if !a.isDeleted {
      ClearInParts(db, request);
      PassesIsExact(db, a, Checked(db, request), if request.Create? then None else Some(id));
      if request.Create? {
        NothingToExclude(db, a, Checked(db, request), id);
      }
    } else {
      TrashIsClear(db, a, NewParticipants(db, request), Some(id));
    }
  }

  /** The form of a project task asks about the resource alone; it never makes a conflict when
      nobody else takes part. */
  lemma TaskFormIsSafeAlone(db: Db, request: Request)
    requires ValidDb(db) && ConflictFree(db)
    requires request.EditForTask? && Possible(db, request)
    requires NewParticipants(db, request) <= {request.resource}
    ensures ConflictFree(Handle(db, request))
  {
    HandleKeepsConflictFree(db, request);
    assert Unchecked(db, request) == {};
  }

  /** Activity 1 has the resource 8 and another participant, who is busy with activity 2 at the
      time that activity 1 is given. */
  lemma TaskFormCanMakeConflict() returns (db: Db, request: Request)
    ensures ValidDb(db) && ConflictFree(db)
    ensures request.EditForTask? && Possible(db, request)
    ensures ValidDb(Handle(db, request)) && !ConflictFree(Handle(db, request))
  {
    var meeting := Activity(Some(10), Some(12), Narrow, true, false);
    var call := Activity(Some(20), Some(21), Narrow, true, false);
    db := Db(map[1 := meeting, 2 := call], {(8, 1), (9, 1), (9, 2)});
    request := EditForTask(1, meeting.(start := Some(20), end := Some(22)), 8, 8, false);
    forall i, j | i in db.activities && j in db.activities && i != j
      ensures !Conflict(db.activities[i], db.activities[j])
    {
    }
    assert CollidingActivities(db, 8, 20, 22, true, Some(1)) == {};
    assert Checked(db, request) == {8};
    var after := Handle(db, request);
    assert after == Wished(db, request);
    assert Participate(after, 9, 1) && Participate(after, 9, 2);
  }

  // ------------------------------------------------------------ what a request asks for

  /** Only activity `id` and who takes part in it may differ. */
  ghost predicate OthersSame(db: Db, after: Db, id: int) {
    && (forall i :: i != id ==> (i in after.activities <==> i in db.activities))
    && (forall i :: i != id && i in db.activities ==> after.activities[i] == db.activities[i])
    && (forall p, i :: i != id ==> ((p, i) in after.participations <==> (p, i) in db.participations))
  }

  ghost predicate SameParticipants(db: Db, after: Db, id: int) {
    forall p :: (p, id) in after.participations <==> (p, id) in db.participations
  }

  /** The request fits `db`, and `after` is what it asks for, conflicts or not. */
  ghost predicate Asked(db: Db, request: Request, after: Db) {
    var id := request.id;
    && OthersSame(db, after, id)
    && id in after.activities
    && (id in db.activities || request.Create? || request.Import?)
    && var row := after.activities[id];
       match request
       case Create(_, a, participants) =>
         && id !in db.activities && (forall p :: (p, id) !in db.participations)
         && WellFormed(a) && !a.isDeleted && row == a
         && forall p :: (p, id) in after.participations <==> p in participants
       case Edit(_, a) =>
         && WellFormed(a) && a.isDeleted == db.activities[id].isDeleted && row == a
         && SameParticipants(db, after, id)
       case Move(_, start, end) =>
         && row.start == Some(start) && row.end == Some(end)
         && row.busy == db.activities[id].busy && row.isDeleted == db.activities[id].isDeleted
         && row.floatingType == (if db.activities[id].floatingType == Floating then Narrow
                                 else db.activities[id].floatingType)
         && SameParticipants(db, after, id)
       case AddParticipants(_, participants) =>
         && row == db.activities[id]
         && forall p :: (p, id) in after.participations <==> (p, id) in db.participations || p in participants
       case RemoveParticipant(_, participant) =>
         && row == db.activities[id]
         && forall p :: (p, id) in after.participations <==> (p, id) in db.participations && p != participant
       case Trash(_) =>
         && row.isDeleted && row.start == db.activities[id].start && row.end == db.activities[id].end
         && row.busy == db.activities[id].busy && row.floatingType == db.activities[id].floatingType
         && SameParticipants(db, after, id)
       case EditForTask(_, a, former, resource, keep) =>
         && WellFormed(a) && a.isDeleted == db.activities[id].isDeleted && row == a
         && (former == resource || keep || (former, id) in db.participations)
         && ResourceReplaced(db, after, id, former, resource, keep)
       case Reassign(_, former, resource, keep) =>
         && row == db.activities[id]
         && ResourceReplaced(db, after, id, former, resource, keep)
       case Import(_, a, participants) =>
         && WellFormed(a) && row == a
         && (if id in db.activities then a.isDeleted == db.activities[id].isDeleted
             else !a.isDeleted && forall p :: (p, id) !in db.participations)
         && forall p :: (p, id) in after.participations <==> (p, id) in db.participations || p in participants
  }

  /** Another resource takes part, and the former one no longer unless it is kept. */
  ghost predicate ResourceReplaced(db: Db, after: Db, id: int, former: int, resource: int, keep: bool) {
    if former == resource then
      SameParticipants(db, after, id)
    else
      forall p :: (p, id) in after.participations
                  <==> p == resource || ((p, id) in db.participations && (keep || p != former))
  }

  lemma WrittenIs(db: Db, id: int, a: Activity, participants: set<int>, after: Db)
    requires OthersSame(db, after, id) && id in after.activities && after.activities[id] == a
    requires forall p :: (p, id) in after.participations <==> p in participants
    ensures Written(db, id, a, participants) == after
  {
    var written := Written(db, id, a, participants);
    forall i
      ensures i in written.activities <==> i in after.activities
      ensures i in written.activities ==> written.activities[i] == after.activities[i]
    {
      assert i != id ==> (i in after.activities <==> i in db.activities);
    }
    assert written.activities == after.activities;
    forall pair: (int, int)
      ensures pair in written.participations <==> pair in after.participations
    {
      var (p, i) := pair;
      assert (p, i) in after.participations <==> if i == id then p in participants else (p, i) in db.participations;
    }
    assert written.participations == after.participations;
  }

  /** A request asks for one calendar: the one that is written if it is carried out. */
  lemma AskedIsWished(db: Db, request: Request, after: Db)
    requires Asked(db, request, after)
    ensures Possible(db, request) && Wished(db, request) == after
  {
    WrittenIs(db, request.id, NewRow(db, request), NewParticipants(db, request), after);
  }

  lemma WishedIsAsked(db: Db, request: Request)
    requires Possible(db, request)
    ensures Asked(db, request, Wished(db, request))
  {
  }

  /** The resource takes part in another activity that conflicts with the row. */
  ghost predicate ResourceIsTaken(db: Db, request: Request)
    requires ValidDb(db) && request.EditForTask? && WellFormed(request.activity)
  {
    exists i :: && i in db.activities && i != request.id && (request.resource, i) in db.participations
                && Conflict(request.activity, db.activities[i])
  }

  /** What comes of a request, told without its handling: what it asks for when the calendar
      asked for is free of conflicts, when the resource of a task is free, or in any case, as
      the request goes; and nothing when it does not fit the calendar. */
  lemma HandlesWhatIsAsked(db: Db, request: Request, after: Db)
    requires ValidDb(db) && ConflictFree(db) && Asked(db, request, after)
    ensures ValidDb(after)
    ensures Handle(db, request) == after || Handle(db, request) == db
    ensures request.Trash? || request.RemoveParticipant? || request.Reassign? || request.Import? ==>
              Handle(db, request) == after
    ensures request.EditForTask? && !request.activity.isDeleted ==>
              Handle(db, request) == if ResourceIsTaken(db, request) then db else after
    ensures request.Create? || request.Edit? || request.Move? || request.AddParticipants? ==>
              (!after.activities[request.id].isDeleted ==>
               Handle(db, request) == if ConflictFree(after) then after else db)
  {
    AskedIsWished(db, request, after);
    NewRowIsWellFormed(db, request);
    WriteIsSafe(db, request.id, NewRow(db, request), NewParticipants(db, request));
    if request.EditForTask? {
      TaskFormHandles(db, request);
    } else if FromOwnViews(request) && !after.activities[request.id].isDeleted {
      assert after.activities[request.id] == NewRow(db, request);
      HandlesExactly(db, request);
    }
  }

  /** The form of a project task is carried out exactly when the resource is free. */
  lemma TaskFormHandles(db: Db, request: Request)
    requires ValidDb(db) && request.EditForTask? && Possible(db, request)
    ensures !request.activity.isDeleted ==>
              Handle(db, request) == if ResourceIsTaken(db, request) then db else Wished(db, request)
    ensures Handle(db, request) == Wished(db, request) || Handle(db, request) == db
  {
    var id, a, resource := request.id, request.activity, request.resource;
    if !a.isDeleted {
      PassesIsExact(db, a, {resource}, Some(id));
      if ResourceIsTaken(db, request) {
        var i :| i in db.activities && i != id && (resource, i) in db.participations && Conflict(a, db.activities[i]);
        assert Participate(db, resource, i);
      }
    }
  }

  lemma HandlesNothingElse(db: Db, request: Request)
    requires forall after :: !Asked(db, request, after)
    ensures Handle(db, request) == db
  {
    if Possible(db, request) {
      WishedIsAsked(db, request);
    }
  }

  /** Activity 1 of participant 8, from 8 to 9, and activity 2, from 10 to 12. */
  function TwoActivities(start: int, end: int): Db {
    Db(map[1 := Activity(Some(start), Some(end), Narrow, true, false),
           2 := Activity(Some(10), Some(12), Narrow, true, false)],
       {(8, 1), (8, 2)})
  }

  /** Activity 1 cannot be moved onto activity 2, and can be moved behind it. */
  lemma MoveIsRefused()
    ensures Handle(TwoActivities(8, 9), Move(1, 10, 12)) == TwoActivities(8, 9)
    ensures Handle(TwoActivities(8, 9), Move(1, 12, 14)) == TwoActivities(12, 14)
  {
    var db, after := TwoActivities(8, 9), TwoActivities(12, 14);
    assert Participants(db, 1) == {8};
    assert Collides(db, 8, 10, 12, true, Some(1), 2);
    assert 2 in CollidingActivities(db, 8, 10, 12, true, Some(1));
    assert CollidingActivities(db, 8, 12, 14, true, Some(1)) == {};
    assert OthersSame(db, after, 1);
    AskedIsWished(db, Move(1, 12, 14), after);
  }

  // ------------------------------------------------------------ runs

  /** A run: each database follows from the one before by some request of a user. */
  ghost predicate IsRun(dbs: seq<Db>, requests: seq<Request>) {
    && |dbs| == |requests| + 1
    && forall k :: 0 <= k < |requests| ==> Follows(dbs, requests, k)
  }

  ghost predicate Follows(dbs: seq<Db>, requests: seq<Request>, k: nat)
    requires k < |requests| && |dbs| == |requests| + 1
  {
    dbs[k + 1] == Handle(dbs[k], requests[k])
  }

  /** Request number `k` is not carried out, or does no harm. */
  ghost predicate HarmlessAt(dbs: seq<Db>, requests: seq<Request>, k: nat)
    requires IsRun(dbs, requests) && k < |requests|
  {
    Possible(dbs[k], requests[k]) && dbs[k + 1] == Wished(dbs[k], requests[k]) ==> Harmless(dbs[k], requests[k])
  }

  ghost predicate FreeUpTo(dbs: seq<Db>, n: nat)
    requires n < |dbs| && forall k :: 0 <= k <= n ==> ValidDb(dbs[k])
  {
    forall k :: 0 <= k <= n ==> ConflictFree(dbs[k])
  }

  ghost predicate HarmlessUpTo(dbs: seq<Db>, requests: seq<Request>, n: nat)
    requires IsRun(dbs, requests) && n <= |requests|
  {
    forall k :: 0 <= k < n ==> HarmlessAt(dbs, requests, k)
  }

  lemma FreeUpToNext(dbs: seq<Db>, n: nat)
    requires n + 1 < |dbs| && forall k :: 0 <= k <= n + 1 ==> ValidDb(dbs[k])
    ensures FreeUpTo(dbs, n + 1) <==> FreeUpTo(dbs, n) && ConflictFree(dbs[n + 1])
  {
  }

  lemma HarmlessUpToNext(dbs: seq<Db>, requests: seq<Request>, n: nat)
    requires IsRun(dbs, requests) && n < |requests|
    ensures HarmlessUpTo(dbs, requests, n + 1) <==> HarmlessUpTo(dbs, requests, n) && HarmlessAt(dbs, requests, n)
  {
  }

  lemma NextOfRun(dbs: seq<Db>, requests: seq<Request>, k: nat)
    requires IsRun(dbs, requests) && k < |requests|
    requires ValidDb(dbs[k])
    ensures ValidDb(dbs[k + 1])
    ensures ConflictFree(dbs[k]) ==> (ConflictFree(dbs[k + 1]) <==> HarmlessAt(dbs, requests, k))
  {
    assert Follows(dbs, requests, k);
    if ConflictFree(dbs[k]) {
      HandleKeepsConflictFree(dbs[k], requests[k]);
    }
  }

  /** Along a run that starts without conflicts, no schedule ever has one if and only if every
      request carried out is harmless. */
  lemma {:induction false} RunsStayConflictFree(dbs: seq<Db>, requests: seq<Request>, n: nat)
    requires IsRun(dbs, requests) && n <= |requests|
    requires ValidDb(dbs[0]) && ConflictFree(dbs[0])
    ensures forall k :: 0 <= k <= n ==> ValidDb(dbs[k])
    ensures FreeUpTo(dbs, n) <==> HarmlessUpTo(dbs, requests, n)
  {
    if n > 0 {
      RunsStayConflictFree(dbs, requests, n - 1);
      NextOfRun(dbs, requests, n - 1);
      FreeUpToNext(dbs, n - 1);
      HarmlessUpToNext(dbs, requests, n - 1);
    }
  }

  /** In particular the requests of the activities' own views never make a conflict. */
  lemma OwnViewsStayConflictFree(dbs: seq<Db>, requests: seq<Request>)
    requires IsRun(dbs, requests)
    requires ValidDb(dbs[0]) && ConflictFree(dbs[0])
    requires forall k :: 0 <= k < |requests| ==> FromOwnViews(requests[k])
    ensures forall k :: 0 <= k < |dbs| ==> ValidDb(dbs[k]) && ConflictFree(dbs[k])
  {
    RunsStayConflictFree(dbs, requests, |requests|);
    assert forall k :: 0 <= k < |requests| ==> HarmlessAt(dbs, requests, k);
  }
}
