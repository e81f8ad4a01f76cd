# Rock-paper-scissors game room, in Dafny

This project models the game server of a rock-paper-scissors elimination
room. It also models three small console exercises from the same repository.

**The game room** (`Project/Server/GameRoom.java`) keeps a READY / IN_PROGRESS
phase, a round counter, an ordered roster of participants, two host-gated
flags (extra options, choice cooldown) and a round timer.

- Players ready up. The session starts once every non-spectator is ready and
  there are at least two of them.
- In each round every player picks r, p or s. With extra options on, f (fire)
  and w (water) are also allowed.
- A player who does not pick is eliminated. Then every pair of active players
  is compared. The winner of a decisive pair gains a point and the loser is
  marked; a pair with a marked member is skipped. The marks are applied after
  the loop.
- One survivor or none ends the session. Two or more start the next round.

**The participant** (`Project/Server/ServerThread.java`) holds the per-player
fields and their setters. It also builds the notification records sent to a
client, and routes incoming records to the room (`processPayload`).

**The three exercises** are:
- the Mad Libs placeholder substitution (`M3/MadLibsGenerator.java`);
- the slash-command loop (`M3/SlashCommandHandler.java`);
- the odd-value printer (`M2/Problem1.java`).

## How it is organised

| file | module | content |
|---|---|---|
| `Common.dfy` | `Common` | `Option`, the Java `int` range |
| `RpsRules.dfy` | `RpsRules` | `winsAgainst` and its tournament properties |
| `JavaStrings.dfy` | `JavaStrings` | Java string operations: `trim`, `toLowerCase`, `indexOf`, `replace`, `split`, `parseInt`, `Integer.toString` |
| `Participants.dfy` | `Participants` | `PlayerState` and the `ServerThread` class with its setters |
| `RoomLogic.dfy` | `RoomLogic` | the room as a state machine over values: one function per entry point |
| `GameRoom.dfy` | `Rooms` | the `GameRoom` class over a roster of `ServerThread` objects; `processPayload` |
| `RoomProperties.dfy` | `RoomProperties` | lemmas about the entry points and the room invariant `Consistent` |
| `RoomExamples.dfy` | `RoomExamples` | concrete rounds that show order dependence and the announced winner |
| `Payloads.dfy` | `Payloads` | payload records, the `send*` builders, the dispatch of `processPayload` |
| `MadLibs.dfy` | `MadLibs` | the in-place line rewrite, specified by `FillLine` / `Completed` |
| `SlashCommands.dfy` | `SlashCommands` | the command classifier and the read-answer loop |
| `OddPrinter.dfy` | `OddPrinter` | `printOdds` over an array, specified by `Printed` |

**The room and its participants are heap objects.**
- `GameRoom.roster` is a `seq<ServerThread>`, and each method changes the
  participants through their setters, as the Java code does.
- `Abstract()` reads the room and its participants into a `RoomState` value.
- Every method is proved to move `Abstract()` exactly as the matching
  `RoomLogic` function says. The properties are then proved about those
  functions.

**The Java map is a sequence.** The client map (`clientsInRoom`) is taken in
its iteration order. The model needs this order for three things:
- the host is the first entry;
- the announced winner is the first entry that is not eliminated;
- the pairwise loop skips pairs with a marked member.

**Java semantics are written out:**
- `int` addition wraps (`WrapInt`);
- `%` truncates toward zero (`JavaRem`);
- `(int)` of a positive or negative product truncates toward zero (`TruncDiv`);
- `split` drops trailing empty strings;
- `parseInt` rejects values outside the 32-bit range.

**Outside inputs are parameters:**
- console input is a finite sequence of lines or answers;
- each `Math.random()` value is a fraction `num/den` in [0, 1);
- console output is modelled by its variable part: the returned sequence holds the text that depends on the input, and the fixed text printed around it is left out (see "## Left out").

**Behaviours of the code that a reader might not expect:**
- **The outcome depends on roster order.** The pairwise loop skips every pair
  in which one side is already marked, so who survives depends on the order
  of the roster. `RoomExamples.OrderDecidesTheWinner` shows the same three
  choices won by different players in two orders.
- **A player can score and still lose.** With rock, scissors and paper in that
  order, rock gains a point against scissors before paper beats it; paper
  wins the round and both rock and paper hold one point
  (`RoomExamples.RockScissorsPaper`).
- **Any first non-eliminated entry is announced as the winner.** The round
  end counts survivors among the players in the game, but announces the first
  roster entry that is not eliminated, which may be a spectator or an away
  player (`RoomExamples.SpectatorAnnouncedAsWinner`).
- **Two room requests are not routed.** `processPayload` has no case for
  CHOICE_COOLDOWN_TOGGLE or AWAY_UPDATE. Those records fall into the default
  branch, which only logs (`Payloads.UnroutedRoomRequests`).
- **Commands are case-sensitive, except `/quit`.** The header comment of
  `SlashCommandHandler.java` calls commands case-insensitive. Only `/quit` is
  compared ignoring case; the other prefixes are matched exactly
  (`SlashCommands.GreetIsCaseSensitive`).

## Model

| member | source | states |
|---|---|---|
| RpsRules.WinsAgainst | Project/Server/GameRoom.java:441-461 | definition of the game's rule; `BaseRules`, `BeatsCount`, `NoMutualWins` and `Tournament` state what it decides |
| RpsRules.Alphabet | Project/Server/GameRoom.java:272-282 | the accepted symbols are {r,p,s} with extras off and {r,p,s,f,w} with extras on |
| RpsRules.NoMutualWins | Project/Server/GameRoom.java:441-461 | no symbol beats itself, and no two symbols beat each other |
| RpsRules.OnlyAlphabetDecides | Project/Server/GameRoom.java:441-461 | only symbols of the enabled alphabet ever win or lose |
| RpsRules.BaseRules | Project/Server/GameRoom.java:442-446 | with extras off the relation is exactly r>s, p>r, s>p |
| RpsRules.Tournament | Project/Server/GameRoom.java:441-461 | two distinct symbols of the alphabet are decided in exactly one direction |
| RpsRules.BeatsCount | Project/Server/GameRoom.java:449-460 | with extras on each symbol beats exactly two others; with extras off, exactly one |
| JavaStrings.Trim | M3/SlashCommandHandler.java:57 | trim gives a piece of the input that neither starts nor ends with a character at or below U+0020; an empty result means the input was all such characters |
| JavaStrings.TrimInfix | M3/SlashCommandHandler.java:57 | trim keeps a contiguous piece of the input and removes only characters at or below U+0020 before and after it |
| JavaStrings.ToLower | Project/Server/GameRoom.java:270 | lower-casing keeps the length and maps each character by itself |
| JavaStrings.EqualsIgnoreCase | M3/SlashCommandHandler.java:58 | definition of String.equalsIgnoreCase on ASCII letters; `QuitIgnoresCase` and `NotQuit` state its use for "/quit" |
| JavaStrings.StartsWith | M3/SlashCommandHandler.java:61-78 | definition of String.startsWith; `ClassifyRoutes` and `GreetIsCaseSensitive` state what the three prefix tests decide |
| JavaStrings.IndexOf | M3/MadLibsGenerator.java:87-88 | the result is the first index at or after `from` that holds the character, or -1 when there is none |
| JavaStrings.Replace | M3/MadLibsGenerator.java:96 | every character of the result comes from the line or from the replacement |
| JavaStrings.ReplaceAbsent | M3/MadLibsGenerator.java:96 | replace leaves a line without the target unchanged |
| JavaStrings.ReplaceFirst | M3/MadLibsGenerator.java:96 | the first occurrence of the target is replaced by the replacement, the text before it is kept and the scan resumes after it; with `ReplaceAbsent` this fixes the result for every input |
| JavaStrings.ReplaceDropsChar | M3/MadLibsGenerator.java:96 | replacing an occurring placeholder by an answer with no '<' removes at least one '<' |
| JavaStrings.ReplaceChar | M3/MadLibsGenerator.java:93 | every '_' becomes ' ' and every other character is kept |
| JavaStrings.Split | M3/SlashCommandHandler.java:65 | without the separator the result is the whole string |
| JavaStrings.PiecesJoin | M3/SlashCommandHandler.java:65 | cutting at every separator loses nothing: the pieces joined with the separator give the input back |
| JavaStrings.JoinSnoc | M3/SlashCommandHandler.java:65 | joining one more piece adds the separator and that piece at the end |
| JavaStrings.DropTrailingEmptyJoin | M3/SlashCommandHandler.java:65 | dropping trailing empty pieces shortens the joined text by separators only |
| JavaStrings.SplitJoin | M3/SlashCommandHandler.java:65 | split pieces hold no separator, the last one is not empty when the separator occurs, and joined back they give the input up to a run of separators at its end |
| JavaStrings.DropTrailingEmpty | M3/SlashCommandHandler.java:65 | split drops exactly the trailing empty pieces |
| JavaStrings.ParseInt | M3/SlashCommandHandler.java:71-72 | a parsed value is always a 32-bit int |
| JavaStrings.ParseIntAccepts | M3/SlashCommandHandler.java:71-72 | a value is parsed exactly when the text is an optional sign followed by at least one digit and the signed value fits in 32 bits; the value is then the signed decimal value of the digits |
| JavaStrings.IntToString | M3/SlashCommandHandler.java:74 | the decimal text of an int printed in the roll line is never empty; `IntRoundTrip` shows parseInt reads it back |
| JavaStrings.IntRoundTrip | M3/SlashCommandHandler.java:71-74 | an int printed in decimal parses back to itself |
| Participants.WrapInt | Project/Server/GameRoom.java:156 | Java int addition: the result is in the 32-bit range, agrees with the exact sum modulo 2^32, and is the exact sum when that fits |
| Participants.ServerThread.constructor | Project/Server/ServerThread.java:48-58 | a new participant holds the Java defaults: not ready, no choice, not eliminated, zero points |
| Participants.ServerThread.SetReady | Project/Server/ServerThread.java:342-344 | only the ready flag changes |
| Participants.ServerThread.SetSpectator | Project/Server/GameRoom.java:328 | only the spectator flag changes |
| Participants.ServerThread.SetAway | Project/Server/GameRoom.java:548 | only the away flag changes |
| Participants.ServerThread.SetEliminated | Project/Server/ServerThread.java:380-382 | only the eliminated flag changes |
| Participants.ServerThread.SetPoints | Project/Server/ServerThread.java:384-386 | only the points change |
| Participants.ServerThread.SetChoice | Project/Server/ServerThread.java:370-372 | only the choice changes |
| Participants.ServerThread.SetTookTurn | Project/Server/ServerThread.java:350-352 | only the took-turn flag changes |
| Participants.ServerThread.ChangePoints | Project/Server/ServerThread.java:388-391 | the points become old points plus delta in Java int arithmetic (exactly that sum when it fits); nothing else changes |
| Payloads.BoolText | Project/Server/ServerThread.java:401 | Boolean.toString gives a non-empty text |
| Payloads.ParseBoolean | Project/Server/ServerThread.java:397-415 | definition of how a receiver reads the flag text (Boolean.parseBoolean, case-insensitive "true"); `BoolTextRoundTrip` states it inverts the text sent |
| Payloads.BoolTextRoundTrip | Project/Server/ServerThread.java:397-415 | a boolean sent as text ("true"/"false") is read back as the same boolean by parseBoolean |
| Payloads.PhaseName | Project/Server/ServerThread.java:108 | the phase name sent is never empty; `PhaseNameRoundTrip` states valueOf reads it back |
| Payloads.PhaseFromName | Project/Server/ServerThread.java:105-110 | a recognised phase name is exactly the name of that phase |
| Payloads.PhaseNameRoundTrip | Project/Server/ServerThread.java:105-110 | the phase name sent is read back as the same phase |
| Payloads.TurnStatus | Project/Server/ServerThread.java:73-85 | the record carries the subject id and took-turn flag, typed SYNC_TURN exactly when quiet and TURN exactly when not |
| Payloads.ReadyStatus | Project/Server/ServerThread.java:118-138 | the record carries the id and ready flag; its type is SYNC_READY when quiet and keeps the class default otherwise |
| Payloads.ClientInfo | Project/Server/ServerThread.java:177-209 | JOIN gives ROOM_JOIN and LEAVE gives ROOM_LEAVE, isSync overrides both with SYNC_CLIENT, and id and name are copied unchanged |
| Payloads.FlagRecord | Project/Server/ServerThread.java:397-415 | the record carries the type and the subject id, and its message parses back to the flag |
| Payloads.PendingStatus | Project/Server/ServerThread.java:397-403 | PENDING_PICK for the subject id, with the flag as the text "true"/"false" |
| Payloads.EliminationStatus | Project/Server/ServerThread.java:409-415 | ELIMINATED for the subject id, with the flag as the text "true"/"false" |
| Payloads.CurrentPhase | Project/Server/ServerThread.java:105-110 | PHASE with client id 0, and a message that names the phase |
| Payloads.PointsStatus | Project/Server/ServerThread.java:161-167 | POINTS with the subject id and its point total |
| Payloads.Dispatch | Project/Server/ServerThread.java:243-335 | TURN, and only TURN, goes to handleTurnAction with the payload message; EXTRA_OPTIONS_TOGGLE, and only it, goes to the extras toggle; READY, and only READY, goes to the ready check; exactly DISCONNECT and ROOM_LEAVE leave the room; exactly ROOM_CREATE and ROOM_JOIN move to another room |
| Payloads.UnroutedRoomRequests | Project/Server/ServerThread.java:322-333 | CHOICE_COOLDOWN_TOGGLE and AWAY_UPDATE reach the default branch, which only logs |
| RoomLogic.ClearChoices | Project/Server/GameRoom.java:370-378 | every participant loses its choice and took-turn flag; nothing else changes |
| RoomLogic.ResetAll | Project/Server/GameRoom.java:230-238 | every participant is reset: zero points, no choice, no turn, not eliminated, not ready |
| RoomLogic.ClearEliminated | Project/Server/GameRoom.java:77-80 | every participant's elimination is cleared and nothing else |
| RoomLogic.EliminateNonPickers | Project/Server/GameRoom.java:126-131 | exactly the participants in the game without a choice are eliminated |
| RoomLogic.Compare | Project/Server/GameRoom.java:141-168 | one comparison keeps the roster length; `DecisivePair` states its effect (winner +1, loser marked, ties and marked pairs skipped) |
| RoomLogic.InnerFrom | Project/Server/GameRoom.java:139-169 | the inner loop keeps the roster length; `InnerKeepsUnmarked` and `ScoredFrame` state what it changes |
| RoomLogic.OuterFrom | Project/Server/GameRoom.java:138-170 | the nested loop keeps the roster length; `OuterKeepsUnmarked` and `ComparisonSparesSomeone` state what it changes |
| RoomLogic.ActiveIndices | Project/Server/GameRoom.java:133-135 | the active list holds, in roster order and without repeats, every position that is not eliminated, not spectating and has a choice |
| RoomLogic.ApplyMarks | Project/Server/GameRoom.java:172-179 | exactly the marked participants not yet eliminated become eliminated |
| RoomLogic.FirstNotEliminated | Project/Server/GameRoom.java:191-194 | a winner is found exactly when some entry is not eliminated |
| RoomLogic.SurvivorIsNotEliminated | Project/Server/GameRoom.java:184-194 | with at least one survivor, the winner lookup finds an entry (the `.get()` cannot fail) |
| RoomLogic.RemoveId | Project/Server/GameRoom.java:68 | removal keeps only entries of other ids, all from the old roster |
| RoomLogic.RoundStart | Project/Server/GameRoom.java:87-111 | a round starts IN_PROGRESS with the timer armed and the counter one higher; every participant keeps its place and all its fields except the choice and took-turn flag, which are cleared; both flags are kept |
| RoomLogic.SessionEnd | Project/Server/GameRoom.java:210-241 | the session ends in READY with round, flags and timer kept; every participant keeps its place, id, spectator and away flags, and has zero points, no choice, no turn, no elimination and no ready flag |
| RoomLogic.SessionStart | Project/Server/GameRoom.java:75-85 | a session starts in round 1, IN_PROGRESS, timer armed; nobody is eliminated or holds a choice; ids, points, ready, spectator and away flags are kept |
| RoomLogic.Scored | Project/Server/GameRoom.java:133-170 | the pairwise comparison keeps one entry per participant |
| RoomLogic.Resolved | Project/Server/GameRoom.java:126-179 | round resolution keeps one entry per participant |
| RoomLogic.RoundEnd | Project/Server/GameRoom.java:120-204 | the roster keeps its length and the flags are kept; the outcome is NextRound exactly when the room stays IN_PROGRESS, which is exactly when the timer is armed again and the counter goes up by one; otherwise the counter is kept |
| RoomLogic.NormalizeChoice | Project/Server/GameRoom.java:270 | definition of trim then toLowerCase on the choice; `PaddedUpperCaseAccepted` states an instance |
| RoomLogic.ChoiceAccepted | Project/Server/GameRoom.java:272-282 | definition of the regular-expression test; `ChoiceAcceptedAlphabet` states it accepts exactly the enabled alphabet |
| RoomLogic.TurnAction | Project/Server/GameRoom.java:246-315 | a caller outside the roster gets NotInRoom; every reply but Picked leaves the room as it was; a pick needs a ready caller in the roster during IN_PROGRESS; the roster keeps its length |
| RoomLogic.AcceptPick | Project/Server/GameRoom.java:284-304 | the reply is Picked and the roster keeps its length; while the round goes on the picker holds the choice and the took-turn flag and the phase is kept; a round that ends either ends the session or starts the next round |
| RoomLogic.ReadyFlags | Project/Server/GameRoom.java:327-354 | definition of the four flags handleReady sets; `HandleReadyStarts` and `HandleReadyForgetsFlags` state the outcome |
| RoomLogic.HandleReady | Project/Server/GameRoom.java:325-368 | the roster keeps its length and ids; the caller spectates exactly unless the room is READY and it readies; during IN_PROGRESS the phase and the counter are kept |
| RoomLogic.StartIfReady | Project/Server/GameRoom.java:356-367 | the room is IN_PROGRESS afterwards exactly when it was already or every non-spectator is ready and there are at least two; a change is a session start in round 1 with the timer armed |
| RoomLogic.IsHostId | Project/Server/GameRoom.java:507-510 | definition of the host test on the roster; `Rooms.GameRoom.IsHost` states it for the room |
| RoomLogic.ExtraOptionsToggle | Project/Server/GameRoom.java:413-436 | definition of the extra-options toggle; `TogglesFlip` and `TogglesConsistent` state its guards, reply and involution |
| RoomLogic.ChoiceCooldownToggle | Project/Server/GameRoom.java:517-538 | definition of the choice-cooldown toggle; `TogglesFlip` and `TogglesConsistent` state its guards, reply and involution |
| RoomLogic.AwayToggle | Project/Server/GameRoom.java:547-555 | only the caller's away flag changes, to the requested value; a caller outside the roster changes nothing in the room |
| RoomLogic.ClientAdded | Project/Server/GameRoom.java:44-64 | the newcomer is host exactly when the room was empty; it is the new last entry and the other ids stay in place; during IN_PROGRESS it joins as a spectator and the phase is kept |
| RoomLogic.ClientRemoved | Project/Server/GameRoom.java:66-73 | the id is gone and the roster does not grow; an emptied room is READY with no timer; otherwise only the roster changes |
| Rooms.States | Project/Server/GameRoom.java:11-15 | the room's participant states are those of its roster, in order |
| Rooms.Position | Project/Server/GameRoom.java:248 | a participant is found exactly when it is in the roster, and at its own position |
| Rooms.WithoutClientStates | Project/Server/GameRoom.java:68 | removing a client from the roster removes its id from the participant states |
| Rooms.WithoutClientDistinct | Project/Server/GameRoom.java:68 | removal keeps client ids distinct |
| Rooms.GameRoom.constructor | Project/Server/GameRoom.java:12-15 | a new room is READY at round 0, with no participants, both flags off and no timer |
| Rooms.GameRoom.IsHost | Project/Server/GameRoom.java:507-510 | the caller is the host exactly when its id is that of the first roster entry (never in an empty room) |
| Rooms.GameRoom.ResetRoundTimer | Project/Server/GameRoom.java:380-386 | the timer is disarmed and nothing else changes |
| Rooms.GameRoom.ResetPlayerChoices | Project/Server/GameRoom.java:370-378 | the room moves as `ClearChoices` says |
| Rooms.GameRoom.OnRoundStart | Project/Server/GameRoom.java:87-111 | the room moves as `RoundStart` says: choices cleared, IN_PROGRESS, round + 1, timer armed |
| Rooms.GameRoom.OnSessionEnd | Project/Server/GameRoom.java:210-241 | the room moves as `SessionEnd` says: everyone reset, phase READY |
| Rooms.GameRoom.ResetPlayers | Project/Server/GameRoom.java:230-238 | the reset loop leaves every participant as `ResetAll` says |
| Rooms.GameRoom.ClearEliminations | Project/Server/GameRoom.java:77-80 | the loop clears every elimination, as `ClearEliminated` says |
| Rooms.GameRoom.OnSessionStart | Project/Server/GameRoom.java:75-85 | the room moves as `SessionStart` says: eliminations cleared, round reset to 0, then the first round |
| Rooms.GameRoom.EliminateNonPickersStep | Project/Server/GameRoom.java:126-131 | the loop eliminates as `EliminateNonPickers` says |
| Rooms.GameRoom.ComparePair | Project/Server/GameRoom.java:140-168 | one iteration moves the points and the toEliminate set as `Compare` says |
| Rooms.GameRoom.CompareWithLater | Project/Server/GameRoom.java:139-169 | the inner loop does what `InnerFrom` says |
| Rooms.GameRoom.ComparePairs | Project/Server/GameRoom.java:133-170 | the nested loop gives the points and the toEliminate set of `Scored` |
| Rooms.GameRoom.ApplyEliminations | Project/Server/GameRoom.java:172-179 | the marked participants are eliminated as `ApplyMarks` says |
| Rooms.GameRoom.OnRoundEnd | Project/Server/GameRoom.java:120-204 | the room and the announced outcome are those of `RoundEnd` |
| Rooms.GameRoom.RecordPick | Project/Server/GameRoom.java:284-285 | only the picker's choice and took-turn flag change |
| Rooms.GameRoom.HandleTurnAction | Project/Server/GameRoom.java:246-315 | the room and the reply are those of `TurnAction`, for the caller's roster position |
| Rooms.GameRoom.AcceptPick | Project/Server/GameRoom.java:284-304 | the pick is recorded, and the round ends when nobody is left to pick, as `RoomLogic.AcceptPick` says |
| Rooms.GameRoom.SetReadyFlags | Project/Server/GameRoom.java:327-354 | the four flags are set as `ReadyFlags` says for the phase and isReady |
| Rooms.GameRoom.HandleReady | Project/Server/GameRoom.java:325-368 | the room moves as `RoomLogic.HandleReady` says; a caller outside the roster still gets its flags |
| Rooms.GameRoom.StartIfReady | Project/Server/GameRoom.java:356-367 | the session starts exactly as `RoomLogic.StartIfReady` says |
| Rooms.GameRoom.HandleExtraOptionsToggle | Project/Server/GameRoom.java:413-436 | the room and the reply are those of `ExtraOptionsToggle` |
| Rooms.GameRoom.HandleChoiceCooldownToggle | Project/Server/GameRoom.java:517-538 | the room and the reply are those of `ChoiceCooldownToggle` |
| Rooms.GameRoom.HandleAwayToggle | Project/Server/GameRoom.java:547-555 | the caller's away flag is set, whether or not it is in the roster, and nothing else changes |
| Rooms.GameRoom.OnClientAdded | Project/Server/GameRoom.java:44-64 | the newcomer is appended, learns whether it is the host, and goes through handleReady(sp, true, false), as `ClientAdded` says |
| Rooms.GameRoom.AppendClient | Project/Server/GameRoom.java:44-64 | the newcomer is the last roster entry, ids stay distinct, and its state is appended |
| Rooms.GameRoom.OnClientRemoved | Project/Server/GameRoom.java:66-73 | the room moves as `ClientRemoved` says: the id is dropped, and an emptied room disarms its timer and ends the session |
| Rooms.ProcessPayload | Project/Server/ServerThread.java:243-335 | DISCONNECT and ROOM_LEAVE, and ROOM_CREATE or ROOM_JOIN when the server accepts the target room, remove the participant as `ClientRemoved` says; TURN with a message runs handleTurnAction; EXTRA_OPTIONS_TOGGLE runs the extras toggle; every other record except READY leaves the roster and the room as they were |
| RoomProperties.ScoredFrame | Project/Server/GameRoom.java:133-170 | the pairwise loop changes only points, only of active participants, and marks only active participants |
| RoomProperties.InnerKeepsUnmarked | Project/Server/GameRoom.java:139-169 | the inner loop never marks the last unmarked active participant |
| RoomProperties.OuterKeepsUnmarked | Project/Server/GameRoom.java:138-170 | the nested loop never marks the last unmarked active participant |
| RoomProperties.ComparisonSparesSomeone | Project/Server/GameRoom.java:137-170 | whatever the choices, some active participant is left unmarked |
| RoomProperties.DecisivePair | Project/Server/GameRoom.java:152-168 | a decisive pair gives the winner exactly one point (Java int arithmetic) and marks the loser; equal choices change nothing |
| RoomProperties.ResolvedFacts | Project/Server/GameRoom.java:126-179 | round resolution keeps ids, flags and choices; it eliminates whoever had to pick and did not; eliminations are never undone; no spectator is newly eliminated; points move only for active participants |
| RoomProperties.RoundEndSparesAnActive | Project/Server/GameRoom.java:126-179 | when someone is active, some active participant survives the comparison |
| RoomProperties.RoundEndBranches | Project/Server/GameRoom.java:184-202 | zero or one survivor ends the session (all reset, READY, no timer); two or more start a round (round + 1, choices cleared, timer armed); Winner exactly when one survivor, Tie exactly when none; the winner is the first non-eliminated entry |
| RoomProperties.ChoiceAcceptedAlphabet | Project/Server/GameRoom.java:272-282 | the regular-expression test accepts exactly the symbols of the enabled alphabet |
| RoomProperties.RoundStartConsistent | Project/Server/GameRoom.java:87-111 | starting a round establishes the room invariant |
| RoomProperties.RoundEndConsistent | Project/Server/GameRoom.java:120-204 | ending a round preserves the room invariant |
| RoomProperties.InitialConsistent | Project/Server/GameRoom.java:12-15 | a new room satisfies the invariant |
| RoomProperties.TurnActionConsistent | Project/Server/GameRoom.java:246-315 | a turn action preserves the invariant |
| RoomProperties.HandleReadyConsistent | Project/Server/GameRoom.java:325-368 | a ready check preserves the invariant |
| RoomProperties.TogglesConsistent | Project/Server/GameRoom.java:413-436 | both toggles preserve the invariant |
| RoomProperties.AwayToggleConsistent | Project/Server/GameRoom.java:547-555 | the away toggle preserves the invariant |
| RoomProperties.HandleReadyForgetsFlags | Project/Server/GameRoom.java:327-354 | the outcome of a ready check does not depend on the caller's earlier ready, spectator, away or eliminated flags |
| RoomProperties.ClientAddedConsistent | Project/Server/GameRoom.java:44-64 | adding a client with a fresh id preserves the invariant |
| RoomProperties.RemoveIdFacts | Project/Server/GameRoom.java:68 | removal keeps ids unique, keeps only other ids, and keeps every entry with another id |
| RoomProperties.RemoveIdAppend | Project/Server/GameRoom.java:68 | removal works part by part on a concatenation, so the remaining entries keep their order |
| RoomProperties.ClientRemovedConsistent | Project/Server/GameRoom.java:66-73 | removing a client preserves the invariant |
| RoomProperties.TurnActionRejects | Project/Server/GameRoom.java:246-282 | the room is unchanged unless the pick is accepted, which happens exactly for a ready participant in the roster, in IN_PROGRESS, in the game, without a choice, whose trimmed lower-cased input is a symbol of the enabled alphabet |
| RoomProperties.TurnActionPicks | Project/Server/GameRoom.java:284-304 | an accepted pick stores the normalised symbol and the took-turn flag; the round ends at once exactly when nobody in the game is left without a choice |
| RoomProperties.PaddedUpperCaseAccepted | Project/Server/GameRoom.java:270-282 | the input " R " is accepted as rock |
| RoomProperties.HandleReadyStarts | Project/Server/GameRoom.java:325-367 | outside READY or when declining, the caller becomes a not-ready spectator, otherwise a ready player; in READY the session starts exactly when every non-spectator is ready and there are at least two |
| RoomProperties.HandleReadyOutsider | Project/Server/GameRoom.java:356-367 | a ready check from outside the roster that cannot start the session leaves the room unchanged |
| RoomProperties.SessionStartFacts | Project/Server/GameRoom.java:75-111 | a session starts in round 1, IN_PROGRESS, timer armed, eliminations and choices cleared |
| RoomProperties.SessionEndFacts | Project/Server/GameRoom.java:210-241 | after the session everyone has zero points, no choice, no turn, no elimination, no ready flag; phase READY; the round counter is kept |
| RoomProperties.SurvivorsAfterReset | Project/Server/GameRoom.java:230-238 | after the reset, the survivors are exactly the participants neither away nor spectating |
| RoomProperties.TogglesFlip | Project/Server/GameRoom.java:413-428 | each toggle flips its flag exactly in READY and for the first roster entry, reports the new value, changes nothing else, and two in a row restore the room |
| RoomProperties.ClientAddedFacts | Project/Server/GameRoom.java:44-64 | the newcomer is host exactly when the room was empty; it joins last as a not-ready spectator unless its arrival meets the start condition |
| RoomProperties.ClientRemovedFacts | Project/Server/GameRoom.java:66-73 | the id is gone, every other id stays, and an emptied room is READY with no timer |
| RoomExamples.CycleScored | Project/Server/GameRoom.java:137-170 | in a three-player cycle the pair of the already-marked second player is skipped: the first and third gain a point, the first two are marked |
| RoomExamples.CycleRound | Project/Server/GameRoom.java:120-204 | such a cycle eliminates the first two, and the third is announced winner |
| RoomExamples.RockScissorsPaper | Project/Server/GameRoom.java:120-204 | rock, scissors, paper in that order: paper wins; rock and paper hold one point each |
| RoomExamples.OrderDecidesTheWinner | Project/Server/GameRoom.java:137-170 | the same choices in another roster order give another winner |
| RoomExamples.SpectatorAnnouncedAsWinner | Project/Server/GameRoom.java:184-194 | a spectator first in the roster is announced as winner though rock is the only survivor |
| MadLibs.Placeholder | M3/MadLibsGenerator.java:86-92 | a found placeholder is non-empty and lies within the line |
| MadLibs.PlaceholderFacts | M3/MadLibsGenerator.java:86-92 | the placeholder is the text from the first '<' to the first later '>', both included; there is none exactly when the line has no '<' or no '>' after it |
| MadLibs.Prompt | M3/MadLibsGenerator.java:93 | the prompt has the placeholder's length and no '_': each '_' becomes a space and every other character is kept |
| MadLibs.FillLine | M3/MadLibsGenerator.java:86-97 | answers are read in order, one prompt per answer read; when they run out, all were read and the last prompt went unanswered |
| MadLibs.StoryFrom | M3/MadLibsGenerator.java:83-99 | the outer loop from line i on keeps the number of lines; `StoryCounts`, `StoryDone` and `StoryKeepsPlainLines` state the rest |
| MadLibs.Completed | M3/MadLibsGenerator.java:83-99 | the whole story keeps its number of lines; `CompletedFacts` states its prompts, plain lines and placeholders |
| MadLibs.FillStory | M3/MadLibsGenerator.java:83-99 | the array afterwards, the prompts and the success flag are those of `Completed` |
| MadLibs.FillOneLine | M3/MadLibsGenerator.java:86-97 | the inner loop gives the line, answers used, prompts and success flag of `FillLine` |
| MadLibs.PromptAndReplace | M3/MadLibsGenerator.java:90-96 | one pass shows the placeholder with '_' as ' '; it then either reports that the answers ran out, keeping the line, or replaces the placeholder by the next answer so that the rest of the loop continues as `FillLine` says |
| MadLibs.PlaceholderReplaced | M3/MadLibsGenerator.java:87-96 | replacing the placeholder keeps the text before it, puts the answer at the placeholder's position and replaces every later occurrence by the same answer |
| MadLibs.FillLineAnswers | M3/MadLibsGenerator.java:92-96 | one round of the inner loop shows the placeholder's prompt and continues with answer `used` at the placeholder's position |
| MadLibs.FillLineRound | M3/MadLibsGenerator.java:90-96 | one round of `FillLine`, resumed after earlier prompts: the prompt is appended, then the answers have run out or the loop goes on with the replaced line and the next answer |
| MadLibs.PlainLineKept | M3/MadLibsGenerator.java:86 | a line without '<' is kept and reads no answer |
| MadLibs.UnclosedLineKept | M3/MadLibsGenerator.java:89-91 | when the first '<' has no '>' after it, the whole line is kept verbatim |
| MadLibs.FilledLineDone | M3/MadLibsGenerator.java:86-97 | a finished line has no placeholder left |
| MadLibs.AnswersPerLine | M3/MadLibsGenerator.java:86-97 | with answers free of '<', a line reads at most as many answers as it has '<' characters, so the inner loop ends |
| MadLibs.StoryKeepsPlainLines | M3/MadLibsGenerator.java:83-99 | lines without '<' come out unchanged |
| MadLibs.StoryDone | M3/MadLibsGenerator.java:83-99 | when the answers last, no line of the story keeps a placeholder |
| MadLibs.StoryCounts | M3/MadLibsGenerator.java:83-99 | one prompt per answer read when the answers last; when they run out, every answer was read and one prompt more was shown |
| MadLibs.CompletedFacts | M3/MadLibsGenerator.java:83-99 | the story keeps its number of lines and its lines without '<'; the prompt and placeholder facts of StoryCounts and StoryDone hold for the whole story |
| MadLibs.SameAnswerForEveryOccurrence | M3/MadLibsGenerator.java:93-96 | "<a_b> <a_b>" with the answer "x" gives "x x" after the one prompt "<a b>" |
| SlashCommands.ParseRoll | M3/SlashCommandHandler.java:64-77 | the format error comes exactly when the split does not give two pieces; otherwise the result is two 32-bit numbers or the number error |
| SlashCommands.ParseRollNumbers | M3/SlashCommandHandler.java:65-76 | with two pieces, the number error comes exactly when either trimmed piece does not parse; a roll holds the parsed values of the two trimmed pieces |
| SlashCommands.Classify | M3/SlashCommandHandler.java:58-83 | quit exactly for "/quit" in any case; greet exactly for a "/greet " prefix otherwise; echo only with the "/echo " prefix; unrecognized only without any of the three prefixes |
| SlashCommands.ClassifyRoutes | M3/SlashCommandHandler.java:58-83 | unrecognized exactly when the line is not "/quit" and has none of the three prefixes; every roll result, errors included, comes from a "/roll " line |
| SlashCommands.Parse | M3/SlashCommandHandler.java:57-60 | a line is quit exactly when its trimmed text is "/quit" in any case |
| SlashCommands.TruncDiv | M3/SlashCommandHandler.java:73 | the truncated quotient keeps the sign of the dividend |
| SlashCommands.Respond | M3/SlashCommandHandler.java:59-82 | apart from an echo, a printed line is non-empty and ends in '!' or '.' |
| SlashCommands.ErrorLines | M3/SlashCommandHandler.java:59-82 | apart from an echo, a printed line starts with "Error: " exactly for the format, number and unrecognized errors |
| SlashCommands.Outputs | M3/SlashCommandHandler.java:57-83 | one printed line per input line read |
| SlashCommands.HandleCommands | M3/SlashCommandHandler.java:29-84 | the loop prints `Outputs` for the lines it read; it stops right after the first quit line, or reads every line when none is quit |
| SlashCommands.OutputsAt | M3/SlashCommandHandler.java:57-83 | the k-th printed line answers the k-th input line with the k-th random value |
| SlashCommands.NotQuit | M3/SlashCommandHandler.java:58 | a line of length other than five is never quit |
| SlashCommands.ClassifyGreet | M3/SlashCommandHandler.java:61-63 | a "/greet " line greets its trimmed remainder |
| SlashCommands.ClassifyRoll | M3/SlashCommandHandler.java:64-77 | a "/roll " line is decided by its remainder alone |
| SlashCommands.ClassifyEcho | M3/SlashCommandHandler.java:78-80 | a "/echo " line echoes its trimmed remainder |
| SlashCommands.ClassifyUnrecognized | M3/SlashCommandHandler.java:81-82 | a longer slash line that starts with none of g, r, e is unrecognized |
| SlashCommands.ScaledBelow | M3/SlashCommandHandler.java:73 | a fraction below one times a positive number k truncates to a value from 0 to k - 1 |
| SlashCommands.RollValue | M3/SlashCommandHandler.java:73 | definition of `(int) (Math.random() * sides) + 1` for a given draw; `RollInRange` states its range |
| SlashCommands.RollInRange | M3/SlashCommandHandler.java:73 | the die shows 1 to sides for positive sides, 1 for zero sides, and sides + 2 to 1 for negative sides |
| SlashCommands.QuitIgnoresCase | M3/SlashCommandHandler.java:57-60 | "/quit" in any letter case, between any blanks, ends the loop |
| SlashCommands.RollArgRoundTrip | M3/SlashCommandHandler.java:65-72 | two printed ints around a 'd', with or without a trailing 'd', parse back to those ints |
| SlashCommands.RollRoundTrip | M3/SlashCommandHandler.java:64-74 | "/roll <num>d<sides>" with printed ints parses back to that roll |
| SlashCommands.GreetRoundTrip | M3/SlashCommandHandler.java:61-63 | "/greet name" answers "Hello, name!" for a name without blanks at its ends |
| SlashCommands.EchoRoundTrip | M3/SlashCommandHandler.java:78-80 | "/echo message" prints the message for a message without blanks at its ends |
| SlashCommands.GreetIsCaseSensitive | M3/SlashCommandHandler.java:61 | "/GREET name" is unrecognized |
| SlashCommands.BareGreetUnrecognized | M3/SlashCommandHandler.java:57-62 | "/greet" followed only by blanks is unrecognized, because trimming removes the space of the prefix |
| SlashCommands.MissingSidesIsFormatError | M3/SlashCommandHandler.java:65-67 | "<num>d" splits into one piece, so it is a format error |
| SlashCommands.MissingCountIsNumberError | M3/SlashCommandHandler.java:65-76 | "d<sides>" splits into an empty count and the sides, so it is a number error |
| OddPrinter.JavaRem | M2/Problem1.java:25 | Java's remainder lies strictly between -m and m and takes the sign of the dividend |
| OddPrinter.OddTest | M2/Problem1.java:25 | `x % 2 != 0` holds exactly for odd x, negative ones included |
| OddPrinter.Odds | M2/Problem1.java:24-26 | the odd elements are no more than the elements, all odd and all from the array |
| OddPrinter.Printed | M2/Problem1.java:24-31 | only odd values are printed, and every separator directly follows a printed value |
| OddPrinter.PrintOdds | M2/Problem1.java:24-31 | the loop prints what `Printed` says for the whole array |
| OddPrinter.PrintedValues | M2/Problem1.java:24-26 | the values printed are exactly the odd elements, in array order |
| OddPrinter.OddsCount | M2/Problem1.java:24-26 | the number of values printed is the number of odd elements |
| OddPrinter.NothingPrinted | M2/Problem1.java:24-31 | nothing is printed exactly when no element is odd (an empty or all-even array) |
| OddPrinter.SeparatorAfterOdd | M2/Problem1.java:27-29 | before the last index, what has been printed ends in a separator |
| OddPrinter.TrailingSeparator | M2/Problem1.java:27-29 | the output ends in ", " exactly when some element is odd and the last one is even |
| OddPrinter.OddThenEven | M2/Problem1.java:24-31 | {1, 2} prints "1, " |

## Left out

- **Timers.** The 30-second `TimedEvent` and its tick callback run on another thread. The timer is the boolean `timerArmed`. Its expiry is a call to `OnRoundEnd`.
- **Concurrency.** Entry points run one at a time.
- **Sends and console output.** The model leaves out:
  - `sendToClient`;
  - the game-event broadcasts and private messages;
  - the leaderboard sort of `onSessionEnd`;
  - logging.

  The payload builders are modelled as values. `HandleTurnAction` returns the private reply as a `TurnReply`.
- **Fixed console text.** Only the input-dependent part of each printed line is modelled. These fixed texts are not in any returned sequence:
  - the "Enter command: " prompt printed on every pass of `HandleCommands` (M3/SlashCommandHandler.java:30);
  - the "Please enter a " and ": " around each `MadLibs.Prompt` (M3/MadLibsGenerator.java:94), and the final story printout (M3/MadLibsGenerator.java:101-106);
  - the "Output Array: " before `PrintOdds`'s pieces and the two closing `println` lines (M2/Problem1.java:16, 35-36).
- **Classes that are not part of this model:**
  - `BaseGameRoom`, `Room`, `BaseServerThread`, `User`, `ReadyPayload`, `TimerPayload` and the exception classes;
  - the one-argument `handleReady(player)` that READY is routed to;
  - `setSpectator`, `setAway`, `getClientId` and `getClientName`.

  The checks `checkPlayerInRoom`, `checkIsReady` and `checkCurrentPhase` are modelled as roster membership, the ready flag and the phase.
- **The map put of `addClient`.** It happens in the base room. `OnClientAdded` appends the newcomer to the roster and requires its id to be new.
- Rooms.ProcessPayload: covers a participant whose current room is the game room; the failed cast and its error message are not modelled. It covers only records whose type was set, since a record with a null type would throw in the switch. A TURN without a message throws in `trim`, which `handleTurnAction` catches; the model leaves the room unchanged for it. CLIENT_CONNECT and CLIENT_ID change the participant's name and id, which are not modelled.
- Rooms.ProcessPayload: DISCONNECT, ROOM_CREATE, ROOM_JOIN and ROOM_LEAVE are handled by the base `Room`, which is not part of this model. Leaving is modelled as the room's `onClientRemoved`, which `GameRoom.java:42` names as the hook for a client that disconnects or leaves. Whether the server accepts a ROOM_CREATE or ROOM_JOIN target is the parameter `accepted`. MESSAGE, REVERSE and ROOM_LIST only send messages. Nothing is promised for READY, because its one-argument `handleReady(player)` is not part of this model.
- RoomLogic.RoundStart: the round counter is an unbounded integer. Java's `int round` would wrap after 2^31 - 1 rounds; a session ends when at most one player survives, so reaching that many rounds needs as many rounds with two or more survivors.
- **Roster order.** The roster assumes that `clientsInRoom` is iterated in insertion order. The map's type is declared in the base `Room`, which is not part of this model. A hash-ordered map would change which participant is host, the order of the pairwise comparisons and the announced winner.
- **Payload overloads.** The overloads without `quiet` or `isSync` pass `false`; they are the same builders with that argument.
- **The client views.** `UserListView`, `GameEventsView`, `UserListItem`, `PlayView` and `ReadyView`, and the client interfaces, are not part of this model. So is `M3/CommandLineCalculator.java`, which is floating-point arithmetic.
- **Letter case and digits are ASCII-only.** `toLowerCase`, `equalsIgnoreCase` and `parseInt` are modelled on ASCII letters and digits. Java also folds other Unicode letters and accepts other Unicode digits.
- SlashCommands.RollValue: `Math.random() * sides` is a double; it is modelled as the exact rational `num * sides / den`, so double rounding is not modelled.
- **The Mad Libs random story choice and file reading** (`File`, `Scanner`) are left out. The story arrives as the array of its lines.
- MadLibs.FillLine: the inner loop may run forever when answers reintroduce placeholders. The model bounds it by the finite answer sequence: running out of answers is the `NoSuchElementException` of `nextLine`, reported as `ok == false`. `AnswersPerLine` shows the bound is never reached with answers free of '<'.
- SlashCommands.HandleCommands: the `while (true)` loop reads until quit. The input runs out as a `NoSuchElementException`, reported as `quit == false`.
