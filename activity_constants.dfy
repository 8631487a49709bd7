/** The activity status and type enumerations (app/core/activity/constants.py). */
module ActivityConstants {
  import opened Wrappers

  /** ActivityStatuses, a string-valued enumeration. */
  datatype ActivityStatus = Planned | InProgress | Finished | Cancelled {
    /** The member's string value. */
    function Value(): string
    {
      match this
      case Planned => "planned"
      case InProgress => "in_progress"
      case Finished => "finished"
      case Cancelled => "cancelled"
    }
  }

  /** The members in declaration order. */
  const Statuses: seq<ActivityStatus> := [Planned, InProgress, Finished, Cancelled]

  /** `ActivityStatuses(v)`: looks a member up by value; None where Python raises ValueError. */
  function StatusOf(v: string): (r: Option<ActivityStatus>)
    ensures r.Some? ==> r.value.Value() == v
    ensures r.None? <==> forall s: ActivityStatus :: s.Value() != v
  {
    if v == "planned" then Some(Planned)
    else if v == "in_progress" then Some(InProgress)
    else if v == "finished" then Some(Finished)
    else if v == "cancelled" then Some(Cancelled)
    else None
  }

  /** There are exactly four statuses, every status is listed, and their values are pairwise distinct. */
  lemma StatusesComplete()
    ensures |Statuses| == 4
    ensures forall s: ActivityStatus :: s in Statuses
    ensures forall i, j :: 0 <= i < j < |Statuses| ==> Statuses[i].Value() != Statuses[j].Value()
  {
    forall s: ActivityStatus ensures s in Statuses {
      match s
      case Planned => assert Statuses[0] == s;
      case InProgress => assert Statuses[1] == s;
      case Finished => assert Statuses[2] == s;
      case Cancelled => assert Statuses[3] == s;
    }
  }

  /** Looking a status up by its own value gives it back. */
  lemma StatusValueRoundTrip(s: ActivityStatus)
    ensures StatusOf(s.Value()) == Some(s)
  {
  }

  /** ActivityTypes, a string-valued enumeration. */
  datatype ActivityType = BoardGames | VideoGames | Movies {
    /** The member's string value. */
    function Value(): string
    {
      match this
      case BoardGames => "board_games"
      case VideoGames => "video_games"
      case Movies => "movies"
    }

    /** The `is_active_type` property: membership in the set of active types. */
    function IsActiveType(): (r: bool)
      ensures r <==> this == VideoGames
    {
      this in ActiveTypes
    }
  }

  /** The set `is_active_type` tests against. */
  const ActiveTypes: set<ActivityType> := {VideoGames}

  /** The members in declaration order. */
  const Types: seq<ActivityType> := [BoardGames, VideoGames, Movies]

  /** `ActivityTypes(v)`: looks a member up by value; None where Python raises ValueError. */
  function TypeOf(v: string): (r: Option<ActivityType>)
    ensures r.Some? ==> r.value.Value() == v
    ensures r.None? <==> forall t: ActivityType :: t.Value() != v
  {
    if v == "board_games" then Some(BoardGames)
    else if v == "video_games" then Some(VideoGames)
    else if v == "movies" then Some(Movies)
    else None
  }

  /** There are exactly three types, every type is listed, values are pairwise distinct,
      and no type value equals a status value. */
  lemma TypesComplete()
    ensures |Types| == 3
    ensures forall t: ActivityType :: t in Types
    ensures forall i, j :: 0 <= i < j < |Types| ==> Types[i].Value() != Types[j].Value()
    ensures forall t: ActivityType, s: ActivityStatus :: t.Value() != s.Value()
  {
    forall t: ActivityType ensures t in Types {
      match t
      case BoardGames => assert Types[0] == t;
      case VideoGames => assert Types[1] == t;
      case Movies => assert Types[2] == t;
    }
  }

  /** Looking a type up by its own value gives it back. */
  lemma TypeValueRoundTrip(t: ActivityType)
    ensures TypeOf(t.Value()) == Some(t)
  {
  }
}
