/** The activity service (app/core/activity/service.py) over an in-memory copy of the three
    tables it uses: `activity`, `user_activity` (memberships) and `user_activity_variants`. */
module ActivityService {
  import opened Wrappers
  import opened ActivityConstants
  import CE = CoreExceptions

  /** A row of the `activity` table. */
  datatype Activity = Activity(
    id: int,
    name: string,
    roomId: int,
    creatorUserId: int,
    status: ActivityStatus,
    kind: ActivityType,
    scheduledAt: Option<string>,
    winnerUserId: Option<int>)

  /** ActivityDTO; `scheduledAt` holds the text `str(scheduled_at)` or None. */
  datatype ActivityDto = ActivityDto(
    id: int,
    name: string,
    roomId: int,
    creatorUserId: int,
    status: ActivityStatus,
    kind: ActivityType,
    scheduledAt: Option<string>,
    winnerUserId: Option<int>)

  /** A row of `user_activity`; (userId, activityId) is its primary key. */
  datatype Membership = Membership(userId: int, activityId: int)

  /** A row of `user_activity_variants`, and the UserActivityVariantDTO built from it. */
  datatype Variant = Variant(userId: int, activityId: int, text: string)

  /** What the service's operations raise: its own three exceptions, and the errors the
      database layer raises underneath it. */
  datatype ActivityError =
    | ActivityNotFound(activityId: int)
    | ActivityNotInProgress(activityId: int)
    | UserAlreadySubmittedVariant(activityId: int, userId: int)
    // IntegrityError: the (user_id, activity_id) primary key of user_activity is taken
    | DuplicateMembership(userId: int, activityId: int)
    // NoResultFound from `.one()` when the activity row does not exist
    | NoResultFound(activityId: int)
    // TypeError from building ActivityDTO without its creator_user_id field
    | MissingCreatorArgument

  // ---------------------------------------------------------------------------
  // Exception messages (app/core/activity/exceptions.py)

  const NotFoundTemplate := "Activity with id=" + CE.Placeholder("activity_id") + " not found."
  const NotInProgressTemplate := "Activity with id=" + CE.Placeholder("activity_id") + " not in progress."
  const SubmittedMiddle := " already" + " submitted variant" + " for activity" + " with id="
  const AlreadySubmittedTemplate :=
    "User with id=" + CE.Placeholder("user_id") + SubmittedMiddle + CE.Placeholder("activity_id") + "."

  /** `str(e)` for the service's own exceptions, with the keyword arguments they are raised with;
      the class name for the database errors, whose text comes from the database library, and
      Python's own text for the TypeError. */
  function Message(e: ActivityError): Result<string, CE.FormatError>
  {
    match e
    case ActivityNotFound(a) =>
      CE.Str(NotFoundTemplate, map["activity_id" := CE.PlainArg(CE.IntValue(a))])
    case ActivityNotInProgress(a) =>
      CE.Str(NotInProgressTemplate, map["activity_id" := CE.PlainArg(CE.IntValue(a))])
    case UserAlreadySubmittedVariant(a, u) =>
      CE.Str(AlreadySubmittedTemplate,
             map["activity_id" := CE.PlainArg(CE.IntValue(a)), "user_id" := CE.PlainArg(CE.IntValue(u))])
    case DuplicateMembership(_, _) => Success("IntegrityError")
    case NoResultFound(_) => Success("NoResultFound")
    // the text CPython 3.10 and later gives a dataclass constructor called without a field
    case MissingCreatorArgument =>
      Success("ActivityDTO.__init__() missing 1 required positional argument: 'creator_user_id'")
  }

  /** The message text, empty where formatting would fail (it never does, see MessagesRender). */
  function MessageText(e: ActivityError): string
  {
    match Message(e)
    case Success(m) => m
    case Failure(_) => ""
  }

  /** Every raise site supplies the keys its template names, so each message renders, with
      the ids written in decimal where the template has its placeholders. */
  lemma MessagesRender(a: int, u: int)
    ensures Message(ActivityNotFound(a)) == Success("Activity with id=" + CE.IntText(a) + " not found.")
    ensures Message(ActivityNotInProgress(a)) == Success("Activity with id=" + CE.IntText(a) + " not in progress.")
    ensures Message(UserAlreadySubmittedVariant(a, u)) ==
            Success("User with id=" + CE.IntText(u) + SubmittedMiddle + CE.IntText(a) + ".")
  {
    NotFoundRenders(a);
    NotInProgressRenders(a);
    AlreadySubmittedRenders(a, u);
  }

  lemma ActivityIdArgument(a: int)
    ensures CE.ValidName("activity_id")
    ensures CE.Arguments(CE.UnwrapAll(map["activity_id" := CE.PlainArg(CE.IntValue(a))])) ==
            map["activity_id" := CE.IntValue(a)]
  {
    assert !CE.IsDigits("activity_id") by { assert "activity_id"[0] == 'a'; }
  }

  lemma NotFoundRenders(a: int)
    ensures Message(ActivityNotFound(a)) == Success("Activity with id=" + CE.IntText(a) + " not found.")
  {
    ActivityIdArgument(a);
    CE.FormatOneField("Activity with id=", "activity_id", " not found.", map["activity_id" := CE.IntValue(a)]);
  }

  lemma NotInProgressRenders(a: int)
    ensures Message(ActivityNotInProgress(a)) == Success("Activity with id=" + CE.IntText(a) + " not in progress.")
  {
    ActivityIdArgument(a);
    CE.FormatOneField("Activity with id=", "activity_id", " not in progress.", map["activity_id" := CE.IntValue(a)]);
  }

  lemma AlreadySubmittedRenders(a: int, u: int)
    ensures Message(UserAlreadySubmittedVariant(a, u)) ==
            Success("User with id=" + CE.IntText(u) + SubmittedMiddle + CE.IntText(a) + ".")
  {
    var two := map["activity_id" := CE.PlainArg(CE.IntValue(a)), "user_id" := CE.PlainArg(CE.IntValue(u))];
    assert CE.Arguments(CE.UnwrapAll(two)) == map["activity_id" := CE.IntValue(a), "user_id" := CE.IntValue(u)];
    AlreadySubmittedFormat(a, u);
  }

  lemma AlreadySubmittedFormat(a: int, u: int)
    ensures CE.Format(AlreadySubmittedTemplate, map["activity_id" := CE.IntValue(a), "user_id" := CE.IntValue(u)]) ==
            Success("User with id=" + CE.IntText(u) + SubmittedMiddle + CE.IntText(a) + ".")
  {
    assert !CE.IsDigits("activity_id") by { assert "activity_id"[0] == 'a'; }
    assert !CE.IsDigits("user_id") by { assert "user_id"[0] == 'u'; }
    MiddleBraceFree();
    CE.FormatTwoFields("User with id=", "user_id", SubmittedMiddle, "activity_id", ".",
                       map["activity_id" := CE.IntValue(a), "user_id" := CE.IntValue(u)]);
  }

  lemma MiddleBraceFree()
    ensures '{' !in SubmittedMiddle && '}' !in SubmittedMiddle
  {
    assert '{' !in " already" && '}' !in " already";
    assert '{' !in " submitted variant" && '}' !in " submitted variant";
    assert '{' !in " for activity" && '}' !in " for activity";
    assert '{' !in " with id=" && '}' !in " with id=";
  }

  // ---------------------------------------------------------------------------
  // Queries over the variant rows

  /** The rows of one activity, in table order (the list comprehension of get_activity_variants). */
  function VariantsOf(rows: seq<Variant>, activityId: int): seq<Variant>
  {
    if rows == [] then []
    else if rows[0].activityId == activityId then [rows[0]] + VariantsOf(rows[1..], activityId)
    else VariantsOf(rows[1..], activityId)
  }

  /** `any(v.user_id == user_id for v in existing_variants)`. */
  predicate AnyByUser(vs: seq<Variant>, userId: int)
  {
    exists i :: 0 <= i < |vs| && vs[i].userId == userId
  }

  /** Filtering keeps exactly the rows of that activity, in their order: appending a row
      appends it to that activity's list and leaves every other activity's list alone. */
  lemma {:induction false} VariantsOfAppend(rows: seq<Variant>, v: Variant, activityId: int)
    ensures VariantsOf(rows + [v], activityId) ==
            VariantsOf(rows, activityId) + (if v.activityId == activityId then [v] else [])
    decreases |rows|
  {
    if rows == [] {
      assert rows + [v] == [v];
      assert [v][1..] == [];
    } else {
      assert (rows + [v])[1..] == rows[1..] + [v];
      VariantsOfAppend(rows[1..], v, activityId);
    }
  }

  /** A row is in an activity's list exactly when it is a row of that activity. */
  lemma {:induction false} VariantsOfMembers(rows: seq<Variant>, activityId: int)
    ensures forall x :: x in VariantsOf(rows, activityId) <==> x in rows && x.activityId == activityId
    ensures |VariantsOf(rows, activityId)| <= |rows|
    decreases |rows|
  {
    if rows != [] {
      VariantsOfMembers(rows[1..], activityId);
      assert rows == [rows[0]] + rows[1..];
    }
  }

  /** The duplicate check on the filtered list is the same as asking whether the user has a
      row for that activity in the whole table. */
  lemma AnyByUserOfVariants(rows: seq<Variant>, userId: int, activityId: int)
    ensures AnyByUser(VariantsOf(rows, activityId), userId) <==>
            exists i :: 0 <= i < |rows| && rows[i].userId == userId && rows[i].activityId == activityId
  {
    VariantsOfMembers(rows, activityId);
    var vs := VariantsOf(rows, activityId);
    if AnyByUser(vs, userId) {
      var i :| 0 <= i < |vs| && vs[i].userId == userId;
      assert vs[i] in rows;
      var j :| 0 <= j < |rows| && rows[j] == vs[i];
      assert rows[j].userId == userId && rows[j].activityId == activityId;
    }
    if exists i :: 0 <= i < |rows| && rows[i].userId == userId && rows[i].activityId == activityId {
      var i :| 0 <= i < |rows| && rows[i].userId == userId && rows[i].activityId == activityId;
      assert rows[i] in vs;
      var j :| 0 <= j < |vs| && vs[j] == rows[i];
      assert AnyByUser(vs, userId);
    }
  }

  /** No user has two variant rows for one activity. */
  ghost predicate OneVariantPerUser(rows: seq<Variant>)
  {
    forall i, j :: 0 <= i < j < |rows| && rows[i].activityId == rows[j].activityId ==> rows[i].userId != rows[j].userId
  }

  /** Appending a row for a user that the duplicate check did not find keeps the table free
      of double submissions. */
  lemma SubmitKeepsOneVariantPerUser(rows: seq<Variant>, v: Variant)
    requires OneVariantPerUser(rows)
    requires !AnyByUser(VariantsOf(rows, v.activityId), v.userId)
    ensures OneVariantPerUser(rows + [v])
  {
    AnyByUserOfVariants(rows, v.userId, v.activityId);
    var r := rows + [v];
    forall i, j | 0 <= i < j < |r| && r[i].activityId == r[j].activityId
      ensures r[i].userId != r[j].userId
    {
      if j == |rows| {
        assert r[i] == rows[i] && r[j] == v;
      } else {
        assert r[i] == rows[i] && r[j] == rows[j];
      }
    }
  }

  /** ActivityService, with the repository's tables held in memory. */
  class ActivityService {
    var activities: map<int, Activity>
    var members: seq<Membership>
    var variants: seq<Variant>

    /** Rows are keyed by their id, the membership primary key holds, and no user has
        submitted twice for one activity. */
    ghost predicate Valid()
      reads this
    {
      && (forall id :: id in activities ==> activities[id].id == id)
      && (forall i, j :: 0 <= i < j < |members| ==> members[i] != members[j])
      && OneVariantPerUser(variants)
    }

    constructor (activities: map<int, Activity>)
      requires forall id :: id in activities ==> activities[id].id == id
      ensures Valid()
      ensures this.activities == activities && members == [] && variants == []
    {
      this.activities := activities;
      members := [];
      variants := [];
    }

    /** get_activity_by_id with the DTO built from every field of the row, creator included. */
    function GetActivityById(activityId: int): (r: Result<ActivityDto, ActivityError>)
      reads this
      ensures r.Failure? <==> activityId !in activities
      ensures r.Failure? ==> r.error == ActivityNotFound(activityId)
      ensures r.Success? ==> var a := activities[activityId];
        && r.value.id == a.id && r.value.name == a.name
        && r.value.roomId == a.roomId && r.value.creatorUserId == a.creatorUserId
        && r.value.status == a.status && r.value.kind == a.kind
        && r.value.scheduledAt == a.scheduledAt && r.value.winnerUserId == a.winnerUserId
    {
      if activityId !in activities then Failure(ActivityNotFound(activityId))
      else
        var a := activities[activityId];
        Success(ActivityDto(a.id, a.name, a.roomId, a.creatorUserId, a.status, a.kind, a.scheduledAt, a.winnerUserId))
    }

    /** get_activity_by_id as written: ActivityDTO is called without `creator_user_id`, a field
        with no default, so building the DTO raises TypeError for every activity that exists. */
    function GetActivityByIdAsWritten(activityId: int): (r: Result<ActivityDto, ActivityError>)
      reads this
      ensures r.Failure?
      ensures activityId in activities ==> r.error == MissingCreatorArgument
      ensures activityId !in activities ==> r.error == ActivityNotFound(activityId)
    {
      if activityId !in activities then Failure(ActivityNotFound(activityId))
      else Failure(MissingCreatorArgument)
    }

    /** get_activity_variants: the variant rows of that activity in table order. */
    function GetActivityVariants(activityId: int): (r: seq<Variant>)
      reads this
      ensures forall x :: x in r <==> x in variants && x.activityId == activityId
      ensures |r| <= |variants|
    {
      VariantsOfMembers(variants, activityId);
      VariantsOf(variants, activityId)
    }

    /** join_activity: not found, then not in progress, then one membership row is added;
        a row already there makes the insert fail on the primary key. */
    method JoinActivity(userId: int, activityId: int) returns (r: Result<Membership, ActivityError>)
      requires Valid()
      modifies this
      ensures Valid()
      ensures activityId !in old(activities) ==> r == Failure(ActivityNotFound(activityId))
      ensures activityId in old(activities) && old(activities)[activityId].status != InProgress ==>
                r == Failure(ActivityNotInProgress(activityId))
      ensures activityId in old(activities) && old(activities)[activityId].status == InProgress ==>
                if Membership(userId, activityId) in old(members)
                then r == Failure(DuplicateMembership(userId, activityId)) && members == old(members)
                else r == Success(Membership(userId, activityId)) && members == old(members) + [r.value]
      ensures r.Failure? ==> members == old(members)
      ensures activities == old(activities) && variants == old(variants)
    {
      if activityId !in activities {
        return Failure(ActivityNotFound(activityId));
      }
      if activities[activityId].status != InProgress {
        return Failure(ActivityNotInProgress(activityId));
      }
      var row := Membership(userId, activityId);
      if row in members {
        return Failure(DuplicateMembership(userId, activityId));
      }
      members := members + [row];
      r := Success(row);
    }

    /** submit_variant: not found, then not in progress, then the duplicate check over the
        activity's variants; only then is exactly one row (user, activity, text) appended. */
    method SubmitVariant(userId: int, activityId: int, text: string) returns (r: Result<Variant, ActivityError>)
      requires Valid()
      modifies this
      ensures Valid()
      ensures activityId !in old(activities) ==> r == Failure(ActivityNotFound(activityId))
      ensures activityId in old(activities) && old(activities)[activityId].status != InProgress ==>
                r == Failure(ActivityNotInProgress(activityId))
      ensures activityId in old(activities) && old(activities)[activityId].status == InProgress ==>
                if AnyByUser(VariantsOf(old(variants), activityId), userId)
                then r == Failure(UserAlreadySubmittedVariant(activityId, userId))
                else r == Success(Variant(userId, activityId, text))
      ensures r.Success? ==> variants == old(variants) + [r.value]
      ensures r.Failure? ==> variants == old(variants)
      ensures activities == old(activities) && members == old(members)
    {
      if activityId !in activities {
        return Failure(ActivityNotFound(activityId));
      }
      if activities[activityId].status != InProgress {
        return Failure(ActivityNotInProgress(activityId));
      }
      var existing := GetActivityVariants(activityId);
      if AnyByUser(existing, userId) {
        return Failure(UserAlreadySubmittedVariant(activityId, userId));
      }
      var row := Variant(userId, activityId, text);
      SubmitKeepsOneVariantPerUser(variants, row);
      variants := variants + [row];
      r := Success(row);
    }

    /** finalize_activity: sets the winner and FINISHED whatever the current status and
        winner are; only a missing row makes it fail. */
    method FinalizeActivity(activityId: int, winnerUserId: int) returns (error: Option<ActivityError>)
      requires Valid()
      modifies this
      ensures Valid()
      ensures error.Some? <==> activityId !in old(activities)
      ensures error.Some? ==> error.value == NoResultFound(activityId) && activities == old(activities)
      ensures error.None? ==>
                activities == old(activities)[activityId :=
                  old(activities)[activityId].(winnerUserId := Some(winnerUserId), status := Finished)]
      ensures members == old(members) && variants == old(variants)
    {
      if activityId !in activities {
        return Some(NoResultFound(activityId));
      }
      var a := activities[activityId];
      activities := activities[activityId := a.(winnerUserId := Some(winnerUserId), status := Finished)];
      error := None;
    }
  }
}
