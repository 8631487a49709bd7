# spend-time-together, modelled in Dafny

A model of the backend core of *spend-time-together*: friends meet in rooms, a room holds
activities, and an activity is played live over a WebSocket. Members join the activity,
each submits one variant, the creator starts a 60-second timer, and a server-side roulette
eliminates variants one by one until a winner is declared and stored.

The model follows the program's structure, one Dafny module per source file:

- `ActivityWs` (`app/api/activity/ws.py`) is the session coordinator.
  - `ConnectionManager` is a class over a map from activity id to a list of sockets.
  - `Transport` stands for the sockets. Its log records every frame the server sends and
    every close; its `gone` set holds the sockets that can no longer take a send.
  - `Coordinator` holds the `activity_timers` registry and the handler of each admitted
    socket. It has one method per step of `websocket_endpoint`: admission, one turn of the
    receive loop, the client's disconnect, and the generic handler with its `finally`. It also
    has a method per part of the timer task.
  - `StartRoulette` and `Eliminate` are the roulette, with the list popped in a loop.
- `ActivityService`, `RoomsService` and `AuthService` model the three services. Each is a
  class over in-memory tables shaped like the repositories' tables. Each operation
  checks its guards in the source's order, then appends or updates rows.
- `AuthSerializers` models the password rule and the login form's length constraints.
- `CoreExceptions` models `str.format` over a message template, the Enum unwrapping of
  the context (in place, in a class), and `__str__`.
- `ApiExceptions` models the `groupby` run merge of `include_exception_responses`,
  `example` and `response`.
- `ApiResponses` models the layered build of `build_responses`.
- `ActivityConstants` models the status and type enums.
- `Wrappers` holds `Option` and `Result`.

Exceptions become `Result`/`Option` values, or close outputs for the socket. A failing send
makes the broadcast stop at that socket. An exception inside the endpoint closes the socket
with code 4000 and the exception's text, and the `finally` clean-up runs after it.

Some inputs come from outside and are parameters:
- randomness: the shuffle permutation, the invite-code draws and the session token;
- the clock: `now`;
- bcrypt: the hash and verify functions;
- the session lookup of `get_authenticated_user_for_ws`;
- the user lookup of `get_user_by_id`;
- the result of `get_users_in_activity`.

The program calls several functions the repository does not define:
- `get_authenticated_user_for_ws` is not in `app/api/auth/deps.py`;
- `ActivityService` has no `get_users_in_activity` and no `exit_activity`;
- `UserService` has no `get_user_by_id`;
- `UserService` (`app/core/users/service.py:8-25`) defines only `get_users`, so it also has
  no `get_user_by_login`, `get_user_by_email` or `create_user`, which
  `app/core/auth/service.py:20`, `:62` and `:86-87` call; the call to `create_user` also
  passes `hashed_password=`, while `UserRepository.create_user` takes `password`;
- `RoomRepository` has no `get_users_by_room_id`, which `app/core/rooms/service.py:127`
  calls.

The model takes the first four through a parameter. The user list is an
`Option<seq<UserInfo>>`, where `None` is the AttributeError the missing method raises. The
exception from `exit_activity` is caught and logged, so it has no effect. The three user
methods the authentication service calls are given the behaviour of the `UserRepository`
methods of the same names. The missing room method is an AttributeError in
`GetUsersInRoom`.

## Model

| member | source | states |
|---|---|---|
| ActivityConstants.StatusOf | app/core/activity/constants.py:3-7 | a string is a status value exactly when some status has it; the status found has it |
| ActivityConstants.StatusesComplete | app/core/activity/constants.py:3-7 | there are exactly four statuses, every status is listed, and their values are pairwise distinct |
| ActivityConstants.StatusValueRoundTrip | app/core/activity/constants.py:3-7 | looking up a status's value gives that status back |
| ActivityConstants.ActivityType.IsActiveType | app/core/activity/constants.py:15-17 | true exactly for VIDEO_GAMES |
| ActivityConstants.TypeOf | app/core/activity/constants.py:10-13 | a string is a type value exactly when some type has it; the type found has it |
| ActivityConstants.TypesComplete | app/core/activity/constants.py:3-13 | there are exactly three types with pairwise distinct values, none equal to a status value |
| ActivityConstants.TypeValueRoundTrip | app/core/activity/constants.py:10-13 | looking up a type's value gives that type back |
| CoreExceptions.Decimal | app/core/exceptions.py:13 | the decimal text of an integer argument is nonempty and made of digits |
| CoreExceptions.DecimalRoundTrip | app/core/exceptions.py:13 | reading the decimal text back gives the number |
| CoreExceptions.FormatLiteralChar | app/core/exceptions.py:13 | a character that is not a brace is copied to the output |
| CoreExceptions.FormatDoubledBrace | app/core/exceptions.py:13 | a doubled brace is output as one brace |
| CoreExceptions.FormatFieldStep | app/core/exceptions.py:13 | `{name}` is replaced by that key's value; a missing key is a KeyError |
| CoreExceptions.FormatEscaped | app/core/exceptions.py:13 | formatting an escaped text gives the text back |
| CoreExceptions.FormatRendered | app/core/exceptions.py:13 | formatting a template expands its literal and field segments in order |
| CoreExceptions.FormatOneField | app/core/exceptions.py:13 | a template with one placeholder formats to the text around it with the key's value in its place |
| CoreExceptions.FormatTwoFields | app/core/exceptions.py:13 | the same with two placeholders |
| CoreExceptions.FormatMissingField | app/core/exceptions.py:13 | a placeholder whose key the context lacks makes formatting fail with KeyError for that key |
| CoreExceptions.Unwrap | app/core/exceptions.py:17-19 | an Enum argument becomes its value; a plain one is untouched |
| CoreExceptions.UnwrapAllProperties | app/core/exceptions.py:16-20 | the keys are kept, Enums become values, plain values are untouched, a second pass changes nothing, and the arguments formatted are the same |
| CoreExceptions.CoreException.constructor | app/core/exceptions.py:8-9 | the context given becomes the instance's attributes |
| CoreExceptions.CoreException.PrepareMessageArgs | app/core/exceptions.py:16-20 | the instance's own attributes are unwrapped in place, and the function returns that same dictionary |
| CoreExceptions.CoreException.ToString | app/core/exceptions.py:11-13 | the result is the template formatted with the unwrapped context, and the instance keeps the unwrapped values |
| ActivityService.MessagesRender | app/core/activity/exceptions.py:8-17 | the three activity errors render as their templates with the ids filled in |
| ActivityService.NotFoundRenders | app/core/activity/exceptions.py:8-9 | ActivityNotFound renders its template with the activity id |
| ActivityService.NotInProgressRenders | app/core/activity/exceptions.py:12-13 | ActivityNotInProgress renders its template with the activity id |
| ActivityService.AlreadySubmittedRenders | app/core/activity/exceptions.py:16-17 | UserAlreadySubmittedVariant renders with the user id, then the activity id |
| ActivityService.AlreadySubmittedFormat | app/core/activity/exceptions.py:16-17 | the duplicate-variant template puts the user id first and the activity id second |
| ActivityService.VariantsOfAppend | app/core/activity/service.py:97-111 | appending a row adds it to the activity's variants exactly when it belongs to that activity |
| ActivityService.VariantsOfMembers | app/core/activity/service.py:103-111 | an activity's variants are exactly the stored rows of that activity, and there are no more of them than rows |
| ActivityService.AnyByUserOfVariants | app/core/activity/service.py:93-95 | the duplicate check finds a variant exactly when a stored row has that user and activity |
| ActivityService.SubmitKeepsOneVariantPerUser | app/core/activity/service.py:93-101 | an append allowed by the duplicate check keeps at most one variant per user and activity |
| ActivityService.ActivityService.GetActivityById | app/core/activity/service.py:37-50 | corrected lookup: fails with ActivityNotFound exactly when the row is missing; otherwise the DTO carries each of the row's eight fields: id, name, room, creator, status, type, scheduled time and winner |
| ActivityService.ActivityService.GetActivityByIdAsWritten | app/core/activity/service.py:37-50 | as written: always fails, with ActivityNotFound for a missing row and with a missing-argument error for an existing one |
| ActivityService.ActivityService.GetActivityVariants | app/core/activity/service.py:103-111 | returns exactly the stored variants of the activity |
| ActivityService.ActivityService.JoinActivity | app/core/activity/service.py:72-83 | checks not found, then not in progress, then adds a membership row; a repeated membership fails and adds nothing |
| ActivityService.ActivityService.SubmitVariant | app/core/activity/service.py:85-101 | checks not found, then not in progress, then duplicate; success appends exactly the new variant; a failure changes nothing |
| ActivityService.ActivityService.FinalizeActivity | app/core/activity/service.py:113-118 | sets the winner and FINISHED whatever the current status and winner; only a missing row makes it fail |
| RoomsService.AlphabetChar | app/core/rooms/service.py:11 | every draw names a character of A-Z or 0-9 |
| RoomsService.AlphabetIndex | app/core/rooms/service.py:11 | every alphabet character is named by a draw |
| RoomsService.AlphabetRoundTrip | app/core/rooms/service.py:11 | a draw's character names that draw again |
| RoomsService.GenerateInviteCode | app/core/rooms/service.py:10-12 | the code has the requested length, and every character is in A-Z or 0-9 |
| RoomsService.EveryCodeIsGenerated | app/core/rooms/service.py:10-12 | every string over the alphabet is the code of some draws |
| RoomsService.DrawsDetermineCode | app/core/rooms/service.py:10-12 | the draws can be read back from the code |
| RoomsService.DtoOf | app/core/rooms/service.py:52-57 | the DTO carries the room's id, name, description and creation time |
| RoomsService.RoomNotFoundRenders | app/core/rooms/exceptions.py:8-9 | RoomNotFound built with `room_id` renders its template |
| RoomsService.RoomNotFoundByIdKeywordFails | app/core/rooms/service.py:112 | RoomNotFound built with `id=` cannot render: the template's `{room_id}` raises KeyError |
| RoomsService.UserNotInRoomRenders | app/core/rooms/exceptions.py:12-13 | UserNotInRoom renders with the user id first and the room id second |
| RoomsService.UserNotInRoomFormat | app/core/rooms/exceptions.py:12-13 | the template formats with the user id first and the room id second |
| RoomsService.UserAlreadyInRoomRenders | app/core/rooms/exceptions.py:20-21 | UserAlreadyInRoom renders with the user id first and the room id second |
| RoomsService.UserAlreadyInRoomFormat | app/core/rooms/exceptions.py:20-21 | the template formats with the user id first and the room id second |
| RoomsService.NotFoundByCodeRenders | app/core/rooms/exceptions.py:16-17 | RoomNotFoundByInviteCode renders with the code |
| RoomsService.FindInvite | app/core/rooms/repository.py:78-87 | finds a stored invite with that code that has not expired, or reports that there is none |
| RoomsService.UsersOf | app/core/rooms/service.py:127 | lists exactly the users with a membership row in the room |
| RoomsService.RoomService.GetRoomById | app/core/rooms/service.py:48-57 | finds an existing room and only an existing one, as its DTO |
| RoomsService.RoomService.ValidateUsersRoom | app/core/rooms/service.py:106-118 | as written: fails exactly when the user is not in the room, and never with RoomNotFound |
| RoomsService.RoomService.ValidateUsersRoomChecked | app/core/rooms/service.py:106-118 | corrected: a missing room gives RoomNotFound, otherwise fails exactly when the user is not in the room |
| RoomsService.RoomService.ValidateDiffersOnlyOnMissingRoom | app/core/rooms/service.py:111-112 | the as-written and corrected checks agree exactly on existing rooms |
| RoomsService.RoomService.ValidateAgreesUnderForeignKeys | app/core/rooms/service.py:106-118 | when the foreign keys hold, the two checks pass on the same inputs, and as written a missing room is reported as UserNotInRoom |
| RoomsService.RoomService.GetUsersInRoom | app/core/rooms/service.py:121-127 | as written: always fails, with the membership error when the as-written check fails, and otherwise with the AttributeError of the missing repository method |
| RoomsService.RoomService.GetUsersInRoomIntended | app/core/rooms/service.py:121-127 | corrected: succeeds exactly for a member of an existing room, and the list holds exactly the room's users, the caller among them |
| RoomsService.RoomService.GetUsersInRoomNeverListsAsWritten | app/core/rooms/service.py:126-127 | a member of an existing room gets the AttributeError as written and the room's users from the corrected version |
| RoomsService.RoomService.ActivateInviteCode | app/core/rooms/service.py:78-104 | no valid invite, then missing room, then already a member; success adds exactly that membership and returns the room |
| RoomsService.RoomService.CreateInviteCode | app/core/rooms/service.py:59-76 | the as-written check runs before generating and its error is returned unchanged; a success is for an existing room the caller belongs to, stores exactly one invite, and its code has 8 characters from A-Z and 0-9; a taken code stores nothing |
| AuthService.FirstByLogin | app/core/users/repository.py:24-29 | finds a user with that login, or reports that none has it |
| AuthService.FirstByEmail | app/core/users/repository.py:32-37 | finds a user with that email, or reports that none has it |
| AuthService.LatestSession | app/core/auth/repository.py:20-26 | finds the user's session with the latest creation time, or reports that the user has none |
| AuthService.OnlySessionIsLatest | app/core/auth/service.py:36-40 | a session saved for a user who had none is that user's session |
| AuthService.AppendSessionKeepsInvariants | app/core/auth/repository.py:28-34 | a saved session with a token no row has and the next id keeps tokens unique and ids in range |
| AuthService.NoSessionForNewUser | app/core/auth/service.py:62-70 | a user whose id is above every session's user id has no session yet, so registration creates one |
| AuthService.NewUserKeepsUnique | app/core/auth/service.py:57-68 | creating a user whose login and email are not taken keeps logins and emails unique |
| AuthService.AuthService.IsUserExistByLoginOrEmail | app/core/auth/service.py:84-89 | true exactly when some user has the login or the email |
| AuthService.AuthService.GetOrCreateUserSession | app/core/auth/service.py:34-47 | returns the existing session unchanged, or creates one with the fresh token, which is then the user's session |
| AuthService.AuthService.AuthenticateUser | app/core/auth/service.py:19-30 | an unknown login fails before the password is checked, a wrong password fails next, otherwise the user's session |
| AuthService.AuthService.UserRegistration | app/core/auth/service.py:49-81 | a taken login or email creates nothing; otherwise the user is stored with the hashed password and the returned token is the session's |
| AuthSerializers.SearchLetter | app/api/auth/serializers.py:33 | true exactly when the value holds an ASCII letter |
| AuthSerializers.SearchDigit | app/api/auth/serializers.py:33 | true exactly when the value holds a digit |
| AuthSerializers.PasswordComplexity | app/api/auth/serializers.py:31-37 | accepts exactly the values with a letter, a digit and at least 8 characters, unchanged; the letter-and-digit error comes before the length |
| AuthSerializers.LoginFormErrors | app/api/auth/serializers.py:6-12 | the login form needs a login of at least 3 and a password of at least 8 characters, each reported on its own |
| AuthSerializers.RegistrationFormErrors | app/api/auth/serializers.py:24-37 | registration rejects exactly the passwords the rule rejects |
| AuthSerializers.RegistrationLoginUnconstrained | app/api/auth/serializers.py:25 | the registration login may have any length, unlike the login form's |
| AuthSerializers.RuleBeforeLength | app/api/auth/serializers.py:33-36 | for every value: the letter-and-digit error exactly when a letter or a digit is missing, whatever the length; a short value always fails, with the length error exactly when it has both |
| AuthSerializers.RuleBeforeLengthExamples | app/api/auth/serializers.py:33-37 | `abc` gets the letter-and-digit error, `abc1` the length error, and `abcdefg1` is accepted unchanged |
| AuthSerializers.RegisteredPasswordFitsLoginForm | app/api/auth/serializers.py:10-36 | a password accepted at registration passes the login form's length check |
| ApiExceptions.Example | app/api/exceptions.py:39-43 | the `example` entry of a dictionary schema extra, otherwise None |
| ApiExceptions.Response | app/api/exceptions.py:45-52 | a model entry and a content entry mapping the content type to the schema extra |
| ApiExceptions.GroupBy | app/api/exceptions.py:57 | splits the arguments into maximal consecutive runs of equal status that concatenate back to them |
| ApiExceptions.Dedup | app/api/exceptions.py:69 | the `Union` of a run's models holds each model once |
| ApiExceptions.FillContent | app/api/exceptions.py:63-65 | the loop over a run fills the nested content defaultdict |
| ApiExceptions.IncludeExceptionResponses | app/api/exceptions.py:54-75 | the loop puts each run's entry under its status, in run order |
| ApiExceptions.NoExceptionsNoResponses | app/api/exceptions.py:54-75 | no exceptions give an empty dictionary |
| ApiExceptions.ResponseKeys | app/api/exceptions.py:57-73 | the keys are exactly the statuses that occur in the arguments |
| ApiExceptions.SingleException | app/api/exceptions.py:60-61 | a run of one maps its status to that exception's `response()` |
| ApiExceptions.MultiRunEntry | app/api/exceptions.py:62-73 | a run of several gives the union of its models and one example per class name under each content type |
| ApiExceptions.RunContentKeys | app/api/exceptions.py:63-65 | the content types and example names are exactly those of the run's classes |
| ApiExceptions.MergeLastRunWins | app/api/exceptions.py:57-73 | the entry of a status is that of its last run |
| ApiExceptions.LaterRunOverwrites | app/api/exceptions.py:57-66 | a later run with the same status, not adjacent to the earlier one, replaces its entry |
| ApiResponses.LayeredEntries | app/api/responses.py:19-24 | exceptions override additional responses, which override the main entry; the keys are the union of all three |
| ApiResponses.WithHeaders | app/api/responses.py:28-29 | the merge succeeds exactly when the entry and its headers are dictionaries, and it keeps every other field |
| ApiResponses.HeadersMap | app/api/responses.py:26 | the pairs list exactly the statuses of the dictionary |
| ApiResponses.HeadersMapLookup | app/api/responses.py:26 | each pair is found under its status |
| ApiResponses.LayerResponses | app/api/responses.py:19-24 | the three update steps give the layered entries |
| ApiResponses.AddHeaders | app/api/responses.py:25-29 | the loop merges the headers of every status that has an entry, or fails at one that cannot take them |
| ApiResponses.BuildResponses | app/api/responses.py:11-30 | the built dictionary is the layered entries with the headers merged, and it fails exactly when some merge fails |
| ApiResponses.NoOptionalArguments | app/api/responses.py:19-30 | with no optional arguments the result is the main status with its model only |
| ApiResponses.StatusCodeAlwaysPresent | app/api/responses.py:19-30 | the main status code always has an entry |
| ApiResponses.ExceptionsOverride | app/api/responses.py:21-24 | an exception's status replaces any entry of the same code, the main one included |
| ApiResponses.HeadersForMissingStatusIgnored | app/api/responses.py:26-27 | headers for a status without an entry are dropped |
| ApiResponses.HeaderMerge | app/api/responses.py:28-29 | existing header names are kept and new ones win |
| ActivityWs.RemoveFirst | app/api/activity/ws.py:44 | `list.remove` drops one occurrence: the length falls by one, an absent socket changes nothing, other sockets stay |
| ActivityWs.Transport.SendEvent | app/api/activity/ws.py:47 | the frame is logged for a socket that can take a send; otherwise the send raises and nothing is logged |
| ActivityWs.Transport.Close | app/api/activity/ws.py:269 | the close is logged with its code and reason, unless the socket is already gone, and afterwards the socket is gone |
| ActivityWs.Transport.Hangup | app/api/activity/ws.py:250 | the client leaves: nothing is logged and the socket can no longer take a send |
| ActivityWs.RemoveFirstCounts | app/api/activity/ws.py:44 | exactly one occurrence of the socket is removed |
| ActivityWs.RemoveFirstSplits | app/api/activity/ws.py:44 | it is the first occurrence that is removed |
| ActivityWs.RemoveFirstNoDuplicates | app/api/activity/ws.py:41-44 | in a list without duplicates the socket is gone afterwards, and there are still no duplicates |
| ActivityWs.WithConnection | app/api/activity/ws.py:36-39 | an unseen activity gets a list; the socket goes at the end; other activities are unchanged |
| ActivityWs.WithoutConnection | app/api/activity/ws.py:41-44 | no key is ever added or deleted; one occurrence leaves the activity's list; other activities are unchanged |
| ActivityWs.ConnectThenDisconnect | app/api/activity/ws.py:36-44 | connecting and then disconnecting a new socket restores the list, which now exists |
| ActivityWs.DisconnectAbsent | app/api/activity/ws.py:41-44 | disconnecting a socket that is not in the list changes nothing |
| ActivityWs.WithConnectionKeeps | app/api/activity/ws.py:36-39 | connecting a socket that is in no list keeps every list free of repeats and keeps every socket where it was |
| ActivityWs.WithoutConnectionKeeps | app/api/activity/ws.py:41-44 | a disconnect keeps every list free of repeats, takes the socket out of its list, and keeps every other socket where it was |
| ActivityWs.FirstGone | app/api/activity/ws.py:51-52 | the position of the first socket that cannot take a send, or the length when every socket can |
| ActivityWs.Deliveries | app/api/activity/ws.py:49-52 | the event goes to each socket in list order, up to the first send that raises |
| ActivityWs.DeliveriesReachAll | app/api/activity/ws.py:49-52 | with every socket reachable, each socket gets the event once, in list order |
| ActivityWs.DeliveriesStopAtGone | app/api/activity/ws.py:51-52 | a socket that cannot take the send stops the delivery: neither it nor any later socket gets the event |
| ActivityWs.BroadcastUnknownActivity | app/api/activity/ws.py:50 | nothing is sent for an activity without a list |
| ActivityWs.BroadcastsAppend | app/api/activity/ws.py:49-52 | consecutive broadcasts to the same list concatenate their deliveries |
| ActivityWs.ConnectionManager.Connect | app/api/activity/ws.py:36-39 | the new connections are those of WithConnection |
| ActivityWs.ConnectionManager.Disconnect | app/api/activity/ws.py:41-44 | the new connections are those of WithoutConnection |
| ActivityWs.ConnectionManager.SendPersonalMessage | app/api/activity/ws.py:46-47 | exactly one frame goes to that socket, unless it cannot take a send |
| ActivityWs.ConnectionManager.Broadcast | app/api/activity/ws.py:49-52 | the log grows by exactly the deliveries; it reports success exactly when every socket in the list can take a send |
| ActivityWs.Shuffle | app/api/activity/ws.py:309-310 | the shuffled list is the variants reordered by the permutation |
| ActivityWs.NoVariantsCancels | app/api/activity/ws.py:300-307 | with no variants the roulette sends exactly one `roulette_cancelled` |
| ActivityWs.RouletteShape | app/api/activity/ws.py:309-348 | over N variants: `roulette_started` with N, then N-1 eliminations from the end of the shuffled list, then its first element as the winner |
| ActivityWs.RouletteDrawsEachOnce | app/api/activity/ws.py:309-348 | every elimination and the winner are distinct input variants |
| ActivityWs.PoppedStep | app/api/activity/ws.py:320-331 | each pop adds the elimination of the last remaining element |
| ActivityWs.RegisterTimer | app/api/activity/ws.py:202-206 | a task is registered only for an activity without an entry; other entries are kept |
| ActivityWs.RegisterTimerOnce | app/api/activity/ws.py:199-209 | a second start changes nothing, and so does a start over an existing entry |
| ActivityWs.CleanupTimers | app/api/activity/ws.py:271-276 | only this activity's entry can go, and it goes exactly when the activity id is nonzero and its list is empty |
| ActivityWs.LastSocketCancelsTimer | app/api/activity/ws.py:270-276 | the last socket's clean-up removes the activity's timer; with other sockets left the timer stays |
| ActivityWs.Coordinator.constructor | app/api/activity/ws.py:27-55 | no connections, no timers, no handlers, nothing sent |
| ActivityWs.Coordinator.Finally | app/api/activity/ws.py:270-276 | for a nonzero activity id the socket leaves the list, and an empty list cancels the timer; the invariants are kept |
| ActivityWs.Coordinator.Abort | app/api/activity/ws.py:267-276 | the socket is closed with 4000 and the exception's text, then cleaned up |
| ActivityWs.Coordinator.Admit | app/api/activity/ws.py:101-128 | on the corrected lookups: rejected exactly when a check fails (session, user, then activity, then room), with that check's close code and reason |
| ActivityWs.Coordinator.NoSocketAdmittedAsWritten | app/api/activity/ws.py:101-128 | as written every socket is closed before `connect`: the session and user checks close it as in the corrected model, and every socket past them, each one the corrected checks admit included, gets 4000 and the TypeError's text |
| ActivityWs.Coordinator.Reject | app/api/activity/ws.py:103-128 | a rejected socket is closed with its code and reason, and only the `finally` clean-up follows |
| ActivityWs.Coordinator.Open | app/api/activity/ws.py:101-183 | on the corrected lookups: admitted exactly when every check passes; then the socket joins the list, the user joins the activity, and the welcome frames and broadcasts follow |
| ActivityWs.Coordinator.Join | app/api/activity/ws.py:129-143 | the socket joins the list before join_activity; a join error closes it with 4000 and its reason |
| ActivityWs.Coordinator.Greet | app/api/activity/ws.py:145-183 | `activity_state`, the user list and `connected` go to the socket, then the announcements; the first failure closes the socket |
| ActivityWs.Coordinator.SendListAndWelcome | app/api/activity/ws.py:152-174 | the user list, then the `connected` message naming the activity, to the socket |
| ActivityWs.Coordinator.Announce | app/api/activity/ws.py:176-183 | `user_joined` to the list, then the user list; the socket's handler starts |
| ActivityWs.Coordinator.SendUsersInActivity | app/api/activity/ws.py:58-81 | the user list is broadcast when it is available; every failure is swallowed |
| ActivityWs.Coordinator.Receive | app/api/activity/ws.py:185-244 | malformed JSON and non-object frames close the socket; `get_users` broadcasts the list; unknown actions change nothing |
| ActivityWs.Coordinator.Ping | app/api/activity/ws.py:193-194 | exactly one `pong` to the socket |
| ActivityWs.Coordinator.StartGame | app/api/activity/ws.py:199-219 | the creator registers a timer at most once; anyone else gets one error frame and registers nothing |
| ActivityWs.Coordinator.SubmitVariantAction | app/api/activity/ws.py:221-244 | a missing or empty variant does nothing; a payload that is not an object closes the socket |
| ActivityWs.Coordinator.SubmitText | app/api/activity/ws.py:224-244 | `variant_submitted` goes out only after the variant is stored; not found or not in progress gives an error frame; a duplicate closes the socket |
| ActivityWs.Coordinator.AnnounceVariant | app/api/activity/ws.py:230-239 | `variant_submitted` to the list; a failed send closes the socket |
| ActivityWs.Coordinator.ReportRefusal | app/api/activity/ws.py:240-244 | one error frame with the exception's text |
| ActivityWs.Coordinator.PeerDisconnect | app/api/activity/ws.py:250-276 | the socket leaves the list, `user_left` and then the user list go to the sockets left, and the clean-up follows |
| ActivityWs.Coordinator.Detach | app/api/activity/ws.py:250-251 | the handler ends and the socket leaves its activity's list; the invariants are kept |
| ActivityWs.Coordinator.AnnounceLeave | app/api/activity/ws.py:253-266 | `user_left`, then the user list only when no send raised |
| ActivityWs.Coordinator.TimerStart | app/api/activity/ws.py:279-284 | `timer_started` with 60 to the list; a failed send kills the task and its entry stays |
| ActivityWs.Coordinator.TimerExpire | app/api/activity/ws.py:284-291 | `timer_finished`, the whole roulette, then the task deletes its own entry; a failed send kills the task and leaves the entry |
| ActivityWs.StartRoulette | app/api/activity/ws.py:294-348 | broadcasts exactly RouletteEvents of the shuffled list, finalizes with its first element, and stops at the first failed send |
| ActivityWs.RouletteBroadcasts | app/api/activity/ws.py:312-348 | the roulette's broadcasts are the start, the eliminations and the winner, in that order |
| ActivityWs.Eliminate | app/api/activity/ws.py:320-333 | pops the shuffled list down to its first element and broadcasts each elimination in turn |

## Left out

- Sockets, JSON and logging are not modelled. A send is an append to the transport's log,
  and a close is a log entry followed by the socket entering `gone`. A frame arrives
  already parsed as an `Incoming` value. A sent value that is not a string, such as a
  numeric `variant`, is not modelled.
- A send that fails is modelled as an exception that the generic handler catches, not as
  WebSocketDisconnect. Which one a real failed send raises depends on the server library.
- Closing an already closed socket outputs nothing and raises nothing.
- There is no asynchrony. Every step runs to completion, so the clean-up of a socket never
  lands in the middle of a roulette. The sleeps take no time.
- Task cancellation is not modelled. A cancelled timer task loses its registry entry, but
  the model does not stop the rest of its steps.
- The timer task is split at its sleep into `TimerStart` and `TimerExpire`. A registered
  task that has not started is `Starting`, a sleeping task is `Sleeping`, and a task that
  died of an exception is `Dead`.
- `get_authenticated_user_for_ws`, `get_user_by_id`, `get_users_in_activity`,
  `user_info.avatar_url` and `exit_activity` are called but not defined in the repository.
  Each is a parameter, or is left without effect.
- ActivityWs.Coordinator.Admit, Open and Rejection: the socket session is modelled on the
  corrected GetActivityById and ValidateUsersRoomChecked. As written, no socket gets past
  the activity lookup. Its TypeError is not an ActivityNotFound, so the outer handler closes
  the socket with 4000 and the error's text, and the room check, including its RoomNotFound
  branch, is never reached. `RejectionAsWritten` and `NoSocketAdmittedAsWritten` state that
  outcome. Everything after admission (Join, Greet, Receive, StartGame and the rest) holds
  only for the corrected program.
- AuthService.AuthService.IsUserExistByLoginOrEmail, AuthenticateUser and UserRegistration:
  as written each raises AttributeError on every input, because `UserService` has none of
  the methods they call. The model gives those calls the behaviour of
  `UserRepository.get_user_by_login`, `get_user_by_email` and `create_user`
  (`app/core/users/repository.py:24-45`), with the hashed password stored as `password`.
- The check at `app/api/activity/ws.py:119-121` for an activity without a creator is not
  modelled. `ActivityDto.creatorUserId` is always an integer.
- The empty list and None are both falsy in the source, so both are modelled as an absent
  value: a missing variant and an empty one are the same `None`. The same holds for an
  absent user.
- `build_responses` updates inner dictionaries that the source shares with its arguments.
  The model works on values, so that aliasing is not modelled. `additional_headers`
  is taken as its list of items, with distinct statuses.
- The pydantic type of a model in `include_exception_responses`, including the `Union`
  over classes, is modelled by name.
- `\d` is taken as ASCII digits only; Python's `\d` also matches other Unicode digits.
  `EmailStr` validation is not modelled.
- The users, sessions and rooms tables are in-memory sequences and maps. The database's
  own checks are modelled only where the source relies on them: the primary key of
  `user_activity`, the unique session token, and the `room_id` foreign keys of
  `users_rooms` and `room_invites`, which `RoomService.Valid` assumes.
- Auto-increment ids are a counter.
- ActivityWs.Coordinator.Receive: the `ping`, `start_game` and `submit_variant` branches of
  its contract are stated on the methods it calls (`Ping`, `StartGame`,
  `SubmitVariantAction`), not repeated in its own ensures.
- ActivityWs.Coordinator.StartGame: for a non-creator whose socket can no longer take a
  send, it states only that no timer is registered, not the close that follows.

## Findings

| source | as written | input that shows it | evidently intended | confidence | as-written member | corrected member |
|---|---|---|---|---|---|---|
| app/core/activity/service.py:42-50 | `get_activity_by_id` builds ActivityDTO without `creator_user_id`, a field without a default, so the call raises TypeError | any existing activity id | the DTO carries the row's creator | high, not executed | ActivityService.ActivityService.GetActivityByIdAsWritten | ActivityService.ActivityService.GetActivityById |
| app/core/rooms/service.py:111 | `self.get_room_by_id(...)` is not awaited; a coroutine is truthy, so the room check never fails | a room id with no room, and any user | a missing room raises RoomNotFound | high, not executed | RoomsService.RoomService.ValidateUsersRoom | RoomsService.RoomService.ValidateUsersRoomChecked |
| app/core/rooms/service.py:112 | `RoomNotFound(id=room_id)` against the template `{room_id}`: `str(e)` raises KeyError | any room id | the exception is built with `room_id=` and renders its message | high, not executed | RoomsService.RoomNotFoundByIdKeywordFails | RoomsService.RoomNotFoundRenders |
| app/core/rooms/service.py:127 | `get_users_in_room` calls `room_repository.get_users_by_room_id`, which RoomRepository does not define, so every call that passes validation raises AttributeError | an existing room and a user who is a member of it | the room's user ids are returned | high, not executed | RoomsService.RoomService.GetUsersInRoomNeverListsAsWritten | RoomsService.RoomService.GetUsersInRoomIntended |
