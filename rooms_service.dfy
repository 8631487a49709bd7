/** The room service (app/core/rooms/service.py) over an in-memory copy of the tables it
    reads and writes: `rooms`, `users_rooms` (memberships) and `room_invites`. */
module RoomsService {
  import opened Wrappers
  import CE = CoreExceptions

  // ---------------------------------------------------------------------------
  // Invite codes

  /** Number of characters in `string.ascii_uppercase + string.digits`. */
  const AlphabetSize := 36

  /** The default `length` of `_generate_invite_code`. */
  const DefaultCodeLength := 8

  /** A character of the invite alphabet: an upper-case ASCII letter or an ASCII digit. */
  predicate IsCodeChar(c: char)
  {
    ('A' <= c <= 'Z') || ('0' <= c <= '9')
  }

  /** The k-th character of `ascii_uppercase + digits`: the 26 letters, then the 10 digits. */
  function AlphabetChar(k: nat): (c: char)
    requires k < AlphabetSize
    ensures IsCodeChar(c)
  {
    if k < 26 then ('A' as int + k) as char else ('0' as int + (k - 26)) as char
  }

  /** The position of an alphabet character, the inverse of AlphabetChar. */
  function AlphabetIndex(c: char): (k: nat)
    requires IsCodeChar(c)
    ensures k < AlphabetSize && AlphabetChar(k) == c
  {
    if 'A' <= c <= 'Z' then (c as int - 'A' as int) else (c as int - '0' as int) + 26
  }

  /** `_generate_invite_code(length)`, where `draws[i]` is the position in the alphabet that
      the i-th `secrets.choice` picks; `range(length)` is empty for a negative length. */
  function GenerateInviteCode(length: int, draws: seq<nat>): (code: string)
    requires |draws| == if length < 0 then 0 else length
    requires forall i :: 0 <= i < |draws| ==> draws[i] < AlphabetSize
    ensures |code| == if length < 0 then 0 else length
    ensures forall i :: 0 <= i < |code| ==> IsCodeChar(code[i])
  {
    seq(|draws|, i requires 0 <= i < |draws| => AlphabetChar(draws[i]))
  }

  /** The draws that produce a given code. */
  function DrawsOf(code: string): (draws: seq<nat>)
    requires forall i :: 0 <= i < |code| ==> IsCodeChar(code[i])
    ensures |draws| == |code|
    ensures forall i :: 0 <= i < |draws| ==> draws[i] < AlphabetSize
  {
    seq(|code|, i requires 0 <= i < |code| => AlphabetIndex(code[i]))
  }

  /** Every string of upper-case letters and digits is a possible invite code of its length. */
  lemma EveryCodeIsGenerated(code: string)
    requires forall i :: 0 <= i < |code| ==> IsCodeChar(code[i])
    ensures GenerateInviteCode(|code|, DrawsOf(code)) == code
  {
  }

  /** Different draws give different codes: the code determines the draws. */
  lemma DrawsDetermineCode(length: int, draws: seq<nat>)
    requires |draws| == if length < 0 then 0 else length
    requires forall i :: 0 <= i < |draws| ==> draws[i] < AlphabetSize
    ensures DrawsOf(GenerateInviteCode(length, draws)) == draws
  {
    var code := GenerateInviteCode(length, draws);
    forall i | 0 <= i < |draws|
      ensures DrawsOf(code)[i] == draws[i]
    {
      AlphabetRoundTrip(draws[i]);
    }
  }

  lemma AlphabetRoundTrip(k: nat)
    requires k < AlphabetSize
    ensures AlphabetIndex(AlphabetChar(k)) == k
  {
  }

  // ---------------------------------------------------------------------------
  // Rows, DTOs and errors

  /** A row of `rooms`; `createdAt` is the text `created_at.isoformat()`. */
  datatype Room = Room(id: int, name: string, description: Option<string>, createdAt: string)

  /** RoomDTO. */
  datatype RoomDto = RoomDto(id: int, name: string, createdAt: string, description: Option<string>)

  /** A row of `users_rooms`; (userId, roomId) is its primary key. */
  datatype Membership = Membership(userId: int, roomId: int)

  /** A row of `room_invites`; `expiresAt` is a point on the database clock. */
  datatype Invite = Invite(roomId: int, code: string, expiresAt: int)

  /** InviteCodeDTO. */
  datatype InviteDto = InviteDto(code: string, roomId: int, expiresAt: int)

  datatype RoomError =
    // RoomNotFound raised with one keyword argument, named `keyword`, holding the room id
    | RoomNotFound(keyword: string, roomId: int)
    | UserNotInRoom(roomId: int, userId: int)
    | RoomNotFoundByInviteCode(code: string)
    | UserAlreadyInRoom(roomId: int, userId: int)
    // IntegrityError: the code is already in the unique `invite_code` column
    | DuplicateInviteCode(code: string)
    // AttributeError: RoomRepository has no `get_users_by_room_id`
    | MissingUsersByRoomId

  function DtoOf(room: Room): (d: RoomDto)
    ensures d.id == room.id && d.name == room.name && d.createdAt == room.createdAt
    ensures d.description == room.description
  {
    RoomDto(room.id, room.name, room.createdAt, room.description)
  }

  // ---------------------------------------------------------------------------
  // Exception messages (app/core/rooms/exceptions.py)

  const RoomNotFoundTemplate := "Room with id=" + CE.Placeholder("room_id") + " not found."
  const NotInRoomMiddle := " is not in room" + " with id="
  const UserNotInRoomTemplate :=
    "User with id=" + CE.Placeholder("user_id") + NotInRoomMiddle + CE.Placeholder("room_id") + "."
  const ByCodeLead := "Room with" + " invite code="
  const NotFoundByCodeTemplate := ByCodeLead + CE.Placeholder("invite_code") + " not found."
  const AlreadyInRoomMiddle := " is already" + " in room" + " with id="
  const UserAlreadyInRoomTemplate :=
    "User with id=" + CE.Placeholder("user_id") + AlreadyInRoomMiddle + CE.Placeholder("room_id") + "."

  /** `str(e)`: the message template formatted with the keyword arguments of the raise. */
  function Message(e: RoomError): Result<string, CE.FormatError>
  {
    match e
    case RoomNotFound(k, r) => CE.Str(RoomNotFoundTemplate, map[k := CE.PlainArg(CE.IntValue(r))])
    case UserNotInRoom(r, u) =>
      CE.Str(UserNotInRoomTemplate, map["room_id" := CE.PlainArg(CE.IntValue(r)), "user_id" := CE.PlainArg(CE.IntValue(u))])
    case RoomNotFoundByInviteCode(c) =>
      CE.Str(NotFoundByCodeTemplate, map["invite_code" := CE.PlainArg(CE.StrValue(c))])
    case UserAlreadyInRoom(r, u) =>
      CE.Str(UserAlreadyInRoomTemplate, map["room_id" := CE.PlainArg(CE.IntValue(r)), "user_id" := CE.PlainArg(CE.IntValue(u))])
    case DuplicateInviteCode(_) => Success("IntegrityError")
    case MissingUsersByRoomId => Success("'RoomRepository' object has no attribute 'get_users_by_room_id'")
  }

  /** The message text, with the exception's own failure spelled as Python prints a KeyError. */
  function MessageText(e: RoomError): string
  {
    match Message(e)
    case Success(m) => m
    case Failure(f) => if f.KeyError? then "'" + f.key + "'" else ""
  }

  lemma NamesValid()
    ensures CE.ValidName("room_id") && CE.ValidName("user_id") && CE.ValidName("invite_code")
  {
    assert "room_id"[0] == 'r';
    assert "user_id"[0] == 'u';
    assert "invite_code"[0] == 'i';
  }

  /** RoomNotFound raised with `room_id=`, as activate_invite_code does, renders its message. */
  lemma RoomNotFoundRenders(r: int)
    ensures Message(RoomNotFound("room_id", r)) == Success("Room with id=" + CE.IntText(r) + " not found.")
  {
    NamesValid();
    var args := map["room_id" := CE.IntValue(r)];
    assert CE.Arguments(CE.UnwrapAll(map["room_id" := CE.PlainArg(CE.IntValue(r))])) == args;
    CE.FormatOneField("Room with id=", "room_id", " not found.", args);
  }

  /** RoomNotFound raised with `id=`, as validate_users_room does, has no `room_id` argument
      for its template, so `str(e)` raises KeyError('room_id'). */
  lemma RoomNotFoundByIdKeywordFails(r: int)
    ensures Message(RoomNotFound("id", r)) == Failure(CE.KeyError("room_id"))
    ensures MessageText(RoomNotFound("id", r)) == "'" + "room_id" + "'"
  {
    NamesValid();
    var args := map["id" := CE.IntValue(r)];
    assert CE.Arguments(CE.UnwrapAll(map["id" := CE.PlainArg(CE.IntValue(r))])) == args;
    assert "room_id" !in args;
    CE.FormatMissingField("Room with id=", "room_id", " not found.", args);
  }

  lemma UserNotInRoomRenders(r: int, u: int)
    ensures Message(UserNotInRoom(r, u)) ==
            Success("User with id=" + CE.IntText(u) + NotInRoomMiddle + CE.IntText(r) + ".")
  {
    assert CE.Arguments(CE.UnwrapAll(map["room_id" := CE.PlainArg(CE.IntValue(r)),
                                         "user_id" := CE.PlainArg(CE.IntValue(u))])) ==
           map["room_id" := CE.IntValue(r), "user_id" := CE.IntValue(u)];
    UserNotInRoomFormat(r, u);
  }

  lemma UserNotInRoomFormat(r: int, u: int)
    ensures CE.Format(UserNotInRoomTemplate, map["room_id" := CE.IntValue(r), "user_id" := CE.IntValue(u)]) ==
            Success("User with id=" + CE.IntText(u) + NotInRoomMiddle + CE.IntText(r) + ".")
  {
    NamesValid();
    CE.FormatTwoFields("User with id=", "user_id", NotInRoomMiddle, "room_id", ".",
                       map["room_id" := CE.IntValue(r), "user_id" := CE.IntValue(u)]);
  }

  lemma UserAlreadyInRoomRenders(r: int, u: int)
    ensures Message(UserAlreadyInRoom(r, u)) ==
            Success("User with id=" + CE.IntText(u) + AlreadyInRoomMiddle + CE.IntText(r) + ".")
  {
    assert CE.Arguments(CE.UnwrapAll(map["room_id" := CE.PlainArg(CE.IntValue(r)),
                                         "user_id" := CE.PlainArg(CE.IntValue(u))])) ==
           map["room_id" := CE.IntValue(r), "user_id" := CE.IntValue(u)];
    UserAlreadyInRoomFormat(r, u);
  }

  lemma UserAlreadyInRoomFormat(r: int, u: int)
    ensures CE.Format(UserAlreadyInRoomTemplate, map["room_id" := CE.IntValue(r), "user_id" := CE.IntValue(u)]) ==
            Success("User with id=" + CE.IntText(u) + AlreadyInRoomMiddle + CE.IntText(r) + ".")
  {
    NamesValid();
    CE.FormatTwoFields("User with id=", "user_id", AlreadyInRoomMiddle, "room_id", ".",
                       map["room_id" := CE.IntValue(r), "user_id" := CE.IntValue(u)]);
  }

  lemma NotFoundByCodeRenders(code: string)
    ensures Message(RoomNotFoundByInviteCode(code)) == Success(ByCodeLead + code + " not found.")
  {
    NamesValid();
    var args := map["invite_code" := CE.StrValue(code)];
    assert CE.Arguments(CE.UnwrapAll(map["invite_code" := CE.PlainArg(CE.StrValue(code))])) == args;
    CE.FormatOneField(ByCodeLead, "invite_code", " not found.", args);
  }

  // ---------------------------------------------------------------------------
  // Queries over the tables

  /** `get_room_by_invite_code`: the first invite row with that code that has not expired
      (`expires_at > now()`). */
  function FindInvite(rows: seq<Invite>, code: string, now: int): (r: Option<Invite>)
    ensures r.Some? ==> r.value in rows && r.value.code == code && r.value.expiresAt > now
    ensures r.None? <==> forall i :: 0 <= i < |rows| ==> !(rows[i].code == code && rows[i].expiresAt > now)
  {
    if rows == [] then None
    else if rows[0].code == code && rows[0].expiresAt > now then Some(rows[0])
    else
      var r := FindInvite(rows[1..], code, now);
      assert forall i :: 1 <= i < |rows| ==> rows[i] == rows[1..][i - 1];
      r
  }

  /** The user ids of a room's members, in table order. */
  function UsersOf(rows: seq<Membership>, roomId: int): (users: seq<int>)
    ensures forall u :: u in users <==> Membership(u, roomId) in rows
    ensures |users| <= |rows|
  {
    if rows == [] then []
    else if rows[0].roomId == roomId then [rows[0].userId] + UsersOf(rows[1..], roomId)
    else UsersOf(rows[1..], roomId)
  }

  /** RoomService, with the repository's tables held in memory. */
  class RoomService {
    var rooms: map<int, Room>
    var members: seq<Membership>
    var invites: seq<Invite>

    /** Rows are keyed by their id, the membership primary key holds, invite codes are unique,
        and the `room_id` foreign keys of memberships and invites name existing rooms. */
    ghost predicate Valid()
      reads this
    {
      && (forall id :: id in rooms ==> rooms[id].id == id)
      && (forall i, j :: 0 <= i < j < |members| ==> members[i] != members[j])
      && (forall i, j :: 0 <= i < j < |invites| ==> invites[i].code != invites[j].code)
      && (forall m :: m in members ==> m.roomId in rooms)
      && (forall i :: 0 <= i < |invites| ==> invites[i].roomId in rooms)
    }

    constructor (rooms: map<int, Room>, members: seq<Membership>, invites: seq<Invite>)
      requires forall id :: id in rooms ==> rooms[id].id == id
      requires forall i, j :: 0 <= i < j < |members| ==> members[i] != members[j]
      requires forall i, j :: 0 <= i < j < |invites| ==> invites[i].code != invites[j].code
      requires forall m :: m in members ==> m.roomId in rooms
      requires forall i :: 0 <= i < |invites| ==> invites[i].roomId in rooms
      ensures Valid()
      ensures this.rooms == rooms && this.members == members && this.invites == invites
    {
      this.rooms := rooms;
      this.members := members;
      this.invites := invites;
    }

    /** `is_user_in_room`. */
    predicate IsUserInRoom(userId: int, roomId: int)
      reads this
    {
      Membership(userId, roomId) in members
    }

    /** get_room_by_id: the room's DTO, or None when there is no such row. */
    function GetRoomById(roomId: int): (r: Option<RoomDto>)
      reads this
      ensures r.Some? <==> roomId in rooms
      ensures r.Some? ==> r.value == DtoOf(rooms[roomId])
    {
      if roomId in rooms then Some(DtoOf(rooms[roomId])) else None
    }

    /** validate_users_room as written: the room check tests the coroutine object returned
        by the un-awaited `get_room_by_id`, which is always true, so only the membership check
        can fail, whether or not the room exists. */
    function ValidateUsersRoom(roomId: int, userId: int): (r: Option<RoomError>)
      reads this
      ensures r.Some? <==> !IsUserInRoom(userId, roomId)
      ensures r.Some? ==> r.value == UserNotInRoom(roomId, userId)
      ensures forall k, id :: r != Some(RoomNotFound(k, id))
    {
      if !IsUserInRoom(userId, roomId) then Some(UserNotInRoom(roomId, userId)) else None
    }

    /** validate_users_room with the room lookup awaited and RoomNotFound raised with the
        `room_id` argument its template names. */
    function ValidateUsersRoomChecked(roomId: int, userId: int): (r: Option<RoomError>)
      reads this
      ensures roomId !in rooms ==> r == Some(RoomNotFound("room_id", roomId))
      ensures roomId in rooms ==> (r.Some? <==> !IsUserInRoom(userId, roomId))
      ensures roomId in rooms && r.Some? ==> r.value == UserNotInRoom(roomId, userId)
      ensures r.Some? ==> MessageText(r.value) != "'room_id'"
    {
      if roomId !in rooms then
        RoomNotFoundRenders(roomId);
        Some(RoomNotFound("room_id", roomId))
      else if !IsUserInRoom(userId, roomId) then
        UserNotInRoomRenders(roomId, userId);
        Some(UserNotInRoom(roomId, userId))
      else None
    }

    /** The two versions differ exactly on a missing room: as written it is reported as
        UserNotInRoom when the user has no membership row for it, and passes when one is
        left behind. */
    lemma ValidateDiffersOnlyOnMissingRoom(roomId: int, userId: int)
      ensures roomId in rooms ==> ValidateUsersRoom(roomId, userId) == ValidateUsersRoomChecked(roomId, userId)
      ensures roomId !in rooms ==> ValidateUsersRoom(roomId, userId) != ValidateUsersRoomChecked(roomId, userId)
    {
    }

    /** In a database whose foreign keys hold, the only disagreement left is the kind of error
        for a missing room: both versions reject it, as written with UserNotInRoom. */
    lemma ValidateAgreesUnderForeignKeys(roomId: int, userId: int)
      requires Valid()
      ensures ValidateUsersRoom(roomId, userId).None? <==> ValidateUsersRoomChecked(roomId, userId).None?
      ensures roomId !in rooms ==> ValidateUsersRoom(roomId, userId) == Some(UserNotInRoom(roomId, userId))
    {
      if roomId !in rooms {
        assert Membership(userId, roomId) !in members;
      }
    }

    /** get_users_in_room as written: after validate_users_room passes, the call to the
        repository's `get_users_by_room_id`, a method RoomRepository does not define, raises
        AttributeError, so no list is ever returned. */
    function GetUsersInRoom(roomId: int, userId: int): (r: Result<seq<int>, RoomError>)
      reads this
      ensures r.Failure?
      ensures ValidateUsersRoom(roomId, userId).Some? ==> r.error == ValidateUsersRoom(roomId, userId).value
      ensures ValidateUsersRoom(roomId, userId).None? ==> r.error == MissingUsersByRoomId
    {
      var check := ValidateUsersRoom(roomId, userId);
      if check.Some? then Failure(check.value) else Failure(MissingUsersByRoomId)
    }

    /** get_users_in_room as intended: the room lookup awaited, and the user ids of the room's
        membership rows listed once validation passes. */
    function GetUsersInRoomIntended(roomId: int, userId: int): (r: Result<seq<int>, RoomError>)
      reads this
      ensures ValidateUsersRoomChecked(roomId, userId).Some? ==>
                r == Failure(ValidateUsersRoomChecked(roomId, userId).value)
      ensures r.Success? <==> roomId in rooms && IsUserInRoom(userId, roomId)
      ensures r.Success? ==> userId in r.value
      ensures r.Success? ==> forall u :: u in r.value <==> IsUserInRoom(u, roomId)
    {
      var check := ValidateUsersRoomChecked(roomId, userId);
      if check.Some? then Failure(check.value) else Success(UsersOf(members, roomId))
    }

    /** Every member of an existing room is shown the room's users by the intended version,
        and shown the AttributeError by the version as written. */
    lemma GetUsersInRoomNeverListsAsWritten(roomId: int, userId: int)
      requires roomId in rooms && IsUserInRoom(userId, roomId)
      ensures GetUsersInRoom(roomId, userId) == Failure(MissingUsersByRoomId)
      ensures GetUsersInRoomIntended(roomId, userId).Success?
    {
    }

    /** activate_invite_code: no live invite, then no room, then already a member; only then
        is the (user, room) membership added and the room returned. */
    method ActivateInviteCode(code: string, userId: int, now: int) returns (r: Result<RoomDto, RoomError>)
      requires Valid()
      modifies this
      ensures Valid()
      ensures FindInvite(old(invites), code, now).None? ==> r == Failure(RoomNotFoundByInviteCode(code))
      ensures FindInvite(old(invites), code, now).Some? ==>
                var roomId := FindInvite(old(invites), code, now).value.roomId;
                if roomId !in old(rooms) then r == Failure(RoomNotFound("room_id", roomId))
                else if Membership(userId, roomId) in old(members) then r == Failure(UserAlreadyInRoom(roomId, userId))
                else r == Success(DtoOf(old(rooms)[roomId])) && members == old(members) + [Membership(userId, roomId)]
      ensures r.Failure? ==> members == old(members)
      ensures rooms == old(rooms) && invites == old(invites)
    {
      var invite := FindInvite(invites, code, now);
      if invite.None? {
        return Failure(RoomNotFoundByInviteCode(code));
      }
      var roomId := invite.value.roomId;
      if roomId !in rooms {
        return Failure(RoomNotFound("room_id", roomId));
      }
      if IsUserInRoom(userId, roomId) {
        return Failure(UserAlreadyInRoom(roomId, userId));
      }
      members := members + [Membership(userId, roomId)];
      r := Success(DtoOf(rooms[roomId]));
    }

    /** create_invite_code: validate with validate_users_room as written (only the membership
        row is checked, and its foreign key then vouches for the room), draw an 8-character
        code, and store it with the expiry the database computes; a code already in the table
        violates the unique column. */
    method CreateInviteCode(roomId: int, userId: int, draws: seq<nat>, expiresAt: int)
      returns (r: Result<InviteDto, RoomError>)
      requires Valid()
      requires |draws| == DefaultCodeLength
      requires forall i :: 0 <= i < |draws| ==> draws[i] < AlphabetSize
      modifies this
      ensures Valid()
      ensures ValidateUsersRoom(roomId, userId).Some? ==>
                r == Failure(ValidateUsersRoom(roomId, userId).value)
      ensures ValidateUsersRoom(roomId, userId).None? ==>
                var code := GenerateInviteCode(DefaultCodeLength, draws);
                if exists i :: 0 <= i < |old(invites)| && old(invites)[i].code == code
                then r == Failure(DuplicateInviteCode(code))
                else r == Success(InviteDto(code, roomId, expiresAt))
                     && invites == old(invites) + [Invite(roomId, code, expiresAt)]
      ensures r.Success? ==> roomId in rooms && IsUserInRoom(userId, roomId)
      ensures r.Success? ==> |r.value.code| == DefaultCodeLength
      ensures r.Success? ==> forall i :: 0 <= i < |r.value.code| ==> IsCodeChar(r.value.code[i])
      ensures r.Failure? ==> invites == old(invites)
      ensures rooms == old(rooms) && members == old(members)
    {
      var check := ValidateUsersRoom(roomId, userId);
      if check.Some? {
        return Failure(check.value);
      }
      assert Membership(userId, roomId) in members;
      var code := GenerateInviteCode(DefaultCodeLength, draws);
      if exists i :: 0 <= i < |invites| && invites[i].code == code {
        return Failure(DuplicateInviteCode(code));
      }
      invites := invites + [Invite(roomId, code, expiresAt)];
      r := Success(InviteDto(code, roomId, expiresAt));
    }
  }
}
