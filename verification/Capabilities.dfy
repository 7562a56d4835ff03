/** Typed capabilities, role presets, grants, and how grants are stored and read back. */
module Capabilities {
  import opened Bytes

  datatype Capability =
    | ControlStart | ControlStop | ControlRestart | ControlKill
    | ConsoleRead | ConsoleWrite | FilesRead | FilesWrite
    | BackupsRead | BackupsWrite | ScheduleRead | ScheduleWrite
    | DatabaseRead | DatabaseWrite | StartupUpdate | StartupInstall | StartupSecrets
    | SubusersRead | SubusersWrite | AllocationRead | AllocationWrite | ActivityRead

  type Caps = set<Capability>

  /** Presentation order, which is also the order of a stored set. */
  const ORDER: seq<Capability> :=
    [ControlStart, ControlStop, ControlRestart, ControlKill,
     ConsoleRead, ConsoleWrite, FilesRead, FilesWrite,
     BackupsRead, BackupsWrite, ScheduleRead, ScheduleWrite,
     DatabaseRead, DatabaseWrite, StartupUpdate, StartupInstall, StartupSecrets,
     SubusersRead, SubusersWrite, AllocationRead, AllocationWrite, ActivityRead]

  const ALL: Caps := set c | c in ORDER

  function Name(c: Capability): string {
    match c
    case ControlStart => "control.start"
    case ControlStop => "control.stop"
    case ControlRestart => "control.restart"
    case ControlKill => "control.kill"
    case ConsoleRead => "console.read"
    case ConsoleWrite => "console.write"
    case FilesRead => "files.read"
    case FilesWrite => "files.write"
    case BackupsRead => "backups.read"
    case BackupsWrite => "backups.write"
    case ScheduleRead => "schedule.read"
    case ScheduleWrite => "schedule.write"
    case DatabaseRead => "database.read"
    case DatabaseWrite => "database.write"
    case StartupUpdate => "startup.update"
    case StartupInstall => "startup.install"
    case StartupSecrets => "startup.secrets"
    case SubusersRead => "subusers.read"
    case SubusersWrite => "subusers.write"
    case AllocationRead => "allocation.read"
    case AllocationWrite => "allocation.write"
    case ActivityRead => "activity.read"
  }

  /** The first capability in `from` called `s`. */
  function FindName(s: string, from: seq<Capability>): Option<Capability> {
    if from == [] then None
    else if Name(from[0]) == s then Some(from[0])
    else FindName(s, from[1..])
  }

  lemma NameInjective(c: Capability, d: Capability)
    requires Name(c) == Name(d)
    ensures c == d
  {
    assert Name(c)[0] == Name(d)[0] && Name(c)[1] == Name(d)[1] && Name(c)[2] == Name(d)[2];
    assert Name(c)[|Name(c)| - 1] == Name(d)[|Name(d)| - 1] && Name(c)[|Name(c)| - 3] == Name(d)[|Name(d)| - 3];
  }

  lemma NamePlain(c: Capability)
    ensures |Name(c)| > 1 && !Space(Name(c)[0]) && !Space(Name(c)[|Name(c)| - 1])
  {
  }

  lemma InOrder(c: Capability)
    ensures c in ORDER && c in ALL
  {
  }

  /** Parsing inverts naming, wherever the capability stands in the list. */
  lemma {:induction false} FindNamed(c: Capability, from: seq<Capability>)
    requires c in from
    ensures FindName(Name(c), from) == Some(c)
  {
    hide Name;
    if Name(from[0]) == Name(c) {
      NameInjective(from[0], c);
    } else {
      FindNamed(c, from[1..]);
    }
  }

  // ---------------- Roles ----------------

  datatype Role = Viewer | Operator | Developer | Manager | Custom

  const PRESETS: seq<Role> := [Viewer, Operator, Developer, Manager]

  function RoleName(r: Role): string {
    match r
    case Viewer => "viewer"
    case Operator => "operator"
    case Developer => "developer"
    case Manager => "manager"
    case Custom => "custom"
  }

  /** An unknown role falls back to `Custom`. */
  function ReadRole(s: string): Role {
    if s == "viewer" then Viewer
    else if s == "operator" then Operator
    else if s == "developer" then Developer
    else if s == "manager" then Manager
    else Custom
  }

  function Preset(r: Role): Caps {
    var viewer := {ConsoleRead, FilesRead, BackupsRead, ScheduleRead, DatabaseRead, AllocationRead, ActivityRead};
    var operator := viewer + {ControlStart, ControlStop, ControlRestart, ConsoleWrite};
    var developer := operator + {FilesWrite, DatabaseWrite, ScheduleWrite, StartupUpdate, SubusersRead, AllocationWrite};
    var manager := developer + {ControlKill, BackupsWrite, StartupInstall, StartupSecrets, SubusersWrite};
    match r
    case Viewer => viewer
    case Operator => operator
    case Developer => developer
    case Manager => manager
    case Custom => {}
  }

  lemma RoleReadsBack(r: Role)
    ensures ReadRole(RoleName(r)) == r
  {
    assert RoleName(r)[0] == if r.Viewer? then 'v' else if r.Operator? then 'o' else if r.Developer? then 'd'
                           else if r.Manager? then 'm' else 'c';
  }

  lemma ManagerIsAll()
    ensures Preset(Manager) == ALL
  {
    forall c: Capability ensures c in Preset(Manager) <==> c in ALL { InOrder(c); }
  }

  /** The lowest preset that holds a capability. */
  function Rung(c: Capability): Role {
    match c
    case ConsoleRead | FilesRead | BackupsRead | ScheduleRead | DatabaseRead | AllocationRead | ActivityRead => Viewer
    case ControlStart | ControlStop | ControlRestart | ConsoleWrite => Operator
    case FilesWrite | DatabaseWrite | ScheduleWrite | StartupUpdate | SubusersRead | AllocationWrite => Developer
    case ControlKill | BackupsWrite | StartupInstall | StartupSecrets | SubusersWrite => Manager
  }

  function Height(r: Role): nat {
    match r
    case Custom => 0
    case Viewer => 1
    case Operator => 2
    case Developer => 3
    case Manager => 4
  }

  /** The presets are a ladder: a role holds exactly what stands on its rung or below. */
  lemma PresetLadder(c: Capability, r: Role)
    ensures c in Preset(r) <==> Height(Rung(c)) <= Height(r)
  {
  }

  /** So each preset holds strictly more than the one below it. */
  lemma PresetChain(low: Role, high: Role)
    ensures Height(low) < Height(high) ==> Preset(low) < Preset(high)
  {
    hide Preset;
    if Height(low) < Height(high) {
      forall c | c in Preset(low) ensures c in Preset(high) {
        PresetLadder(c, low);
        PresetLadder(c, high);
      }
      var top := if high.Viewer? then ConsoleRead else if high.Operator? then ControlStart
                 else if high.Developer? then FilesWrite else ControlKill;
      PresetLadder(top, low);
      PresetLadder(top, high);
    }
  }

  predicate Reads(c: Capability) {
    match c
    case ConsoleRead | FilesRead | BackupsRead | ScheduleRead | DatabaseRead | SubusersRead | AllocationRead | ActivityRead => true
    case _ => false
  }

  lemma ReadsByName(c: Capability)
    ensures |Name(c)| >= 10 && (Reads(c) <==> Name(c)[|Name(c)| - 1] == 'd')
    ensures Reads(c) ==> var n := |Name(c)| - 5; Name(c)[n] == '.' && Name(c)[n + 1] == 'r'
    ensures Reads(c) ==> var n := |Name(c)| - 3; Name(c)[n] == 'e' && Name(c)[n + 1] == 'a'
  {
  }

  /** A viewer holds no capability that changes anything, and all that read but the list of
      team members. */
  lemma ViewerReads(c: Capability)
    ensures |Name(c)| >= 5
    ensures c in Preset(Viewer) <==> Name(c)[|Name(c)| - 5..] == ".read" && c != SubusersRead
  {
    hide Preset, Name;
    PresetLadder(c, Viewer);
    ReadsByName(c);
    var tail := Name(c)[|Name(c)| - 5..];
    assert tail[4] == Name(c)[|Name(c)| - 1];
    if Reads(c) { assert tail == ['.', 'r', 'e', 'a', 'd']; }
  }

  // ---------------- Tokens ----------------

  /** Unicode white space. */
  predicate Space(ch: char) {
    var x := ch as int;
    || 0x09 <= x <= 0x0D || x == 0x20 || x == 0x85 || x == 0xA0 || x == 0x1680
    || 0x2000 <= x <= 0x200A || x == 0x2028 || x == 0x2029 || x == 0x202F || x == 0x205F || x == 0x3000
  }

  function TrimStart(s: string): string {
    if s != [] && Space(s[0]) then TrimStart(s[1..]) else s
  }

  function TrimEnd(s: string): string {
    if s != [] && Space(s[|s| - 1]) then TrimEnd(s[..|s| - 1]) else s
  }

  function Trim(s: string): string {
    TrimEnd(TrimStart(s))
  }

  /** All of Unicode's white space, one by one. */
  lemma SpaceIs(ch: char)
    ensures Space(ch) <==>
            ch as int in {0x09, 0x0A, 0x0B, 0x0C, 0x0D, 0x20, 0x85, 0xA0, 0x1680, 0x2000, 0x2001, 0x2002, 0x2003, 0x2004,
                          0x2005, 0x2006, 0x2007, 0x2008, 0x2009, 0x200A, 0x2028, 0x2029, 0x202F, 0x205F, 0x3000}
  {
  }

  ghost predicate Blank(s: string) {
    forall i :: 0 <= i < |s| ==> Space(s[i])
  }

  lemma {:induction false} TrimStartIs(s: string) returns (before: string)
    ensures s == before + TrimStart(s) && Blank(before)
    ensures TrimStart(s) != [] ==> !Space(TrimStart(s)[0])
  {
    hide Space;
    if s != [] && Space(s[0]) {
      before := TrimStartIs(s[1..]);
      before := [s[0]] + before;
    } else {
      before := [];
    }
  }

  lemma {:induction false} TrimEndIs(s: string) returns (after: string)
    ensures s == TrimEnd(s) + after && Blank(after)
    ensures TrimEnd(s) != [] ==> !Space(TrimEnd(s)[|TrimEnd(s)| - 1])
  {
    hide Space;
    if s != [] && Space(s[|s| - 1]) {
      after := TrimEndIs(s[..|s| - 1]);
      after := after + [s[|s| - 1]];
    } else {
      after := [];
    }
  }

  /** Trimming takes off the white space at both ends, all of it and nothing else. */
  lemma TrimExactly(s: string) returns (before: string, after: string)
    ensures s == before + Trim(s) + after && Blank(before) && Blank(after)
    ensures Trim(s) != [] ==> !Space(Trim(s)[0]) && !Space(Trim(s)[|Trim(s)| - 1])
  {
    hide Space, TrimStart, TrimEnd;
    before := TrimStartIs(s);
    after := TrimEndIs(TrimStart(s));
    if Trim(s) != [] { assert Trim(s)[0] == TrimStart(s)[0]; }
  }

  /** What one trimmed token stands for, `*` apart. */
  function Meaning(token: string): Caps {
    var named := FindName(token, ORDER);
    if named.Some? then {named.value}
    else Legacy(token)
  }

  /** The words of old: categories, and power verbs. */
  function Legacy(token: string): Caps {
    if token == "power" || token == "control" then {ControlStart, ControlStop, ControlRestart, ControlKill}
    else if token == "start" then {ControlStart}
    else if token == "stop" then {ControlStop}
    else if token == "restart" then {ControlRestart}
    else if token == "kill" then {ControlKill}
    else if token == "console" then {ConsoleRead, ConsoleWrite}
    else if token == "files" then {FilesRead, FilesWrite}
    else if token == "backups" then {BackupsRead, BackupsWrite}
    else if token == "schedule" || token == "schedules" then {ScheduleRead, ScheduleWrite}
    else if token == "database" || token == "databases" then {DatabaseRead, DatabaseWrite}
    else if token == "startup" then {StartupUpdate, StartupInstall, StartupSecrets}
    else if token == "subusers" then {SubusersRead, SubusersWrite}
    else if token == "allocation" || token == "allocations" then {AllocationRead, AllocationWrite}
    else if token == "activity" then {ActivityRead}
    else {}
  }

  lemma NameDotted(c: Capability)
    ensures '.' in Name(c)
  {
    assert Name(c)[5] == '.' || Name(c)[7] == '.' || Name(c)[8] == '.' || Name(c)[10] == '.';
  }

  /** A word without a dot is no capability's name. */
  lemma {:induction false} DotlessUnnamed(token: string, from: seq<Capability>)
    requires '.' !in token
    ensures FindName(token, from).None?
  {
    hide Name;
    if from != [] {
      NameDotted(from[0]);
      DotlessUnnamed(token, from[1..]);
    }
  }

  /** The grouping of capabilities, and its names. */
  datatype Category =
    | Control | Console | Files | Backups | Schedule | Database | Startup | Subusers | Allocation | Activity

  function CategoryOf(c: Capability): Category {
    match c
    case ControlStart | ControlStop | ControlRestart | ControlKill => Control
    case ConsoleRead | ConsoleWrite => Console
    case FilesRead | FilesWrite => Files
    case BackupsRead | BackupsWrite => Backups
    case ScheduleRead | ScheduleWrite => Schedule
    case DatabaseRead | DatabaseWrite => Database
    case StartupUpdate | StartupInstall | StartupSecrets => Startup
    case SubusersRead | SubusersWrite => Subusers
    case AllocationRead | AllocationWrite => Allocation
    case ActivityRead => Activity
  }

  function CategoryName(g: Category): string {
    match g
    case Control => "control"
    case Console => "console"
    case Files => "files"
    case Backups => "backups"
    case Schedule => "schedule"
    case Database => "database"
    case Startup => "startup"
    case Subusers => "subusers"
    case Allocation => "allocation"
    case Activity => "activity"
  }

  lemma NamedFirst(c: Capability)
    requires CategoryOf(c) in {Control, Console, Files, Backups, Schedule}
    ensures CategoryName(CategoryOf(c)) + "." <= Name(c)
  {
    var stem := CategoryName(CategoryOf(c)) + ".";
    assert forall i :: 0 <= i < |stem| ==> Name(c)[i] == stem[i];
  }

  lemma NamedSecond(c: Capability)
    requires CategoryOf(c) !in {Control, Console, Files, Backups, Schedule}
    ensures CategoryName(CategoryOf(c)) + "." <= Name(c)
  {
    var stem := CategoryName(CategoryOf(c)) + ".";
    assert forall i :: 0 <= i < |stem| ==> Name(c)[i] == stem[i];
  }

  /** A capability's name is its category's, a dot, and the action. */
  lemma NamedByCategory(c: Capability)
    ensures CategoryName(CategoryOf(c)) + "." <= Name(c)
  {
    hide CategoryOf, CategoryName, Name;
    if CategoryOf(c) in {Control, Console, Files, Backups, Schedule} { NamedFirst(c); } else { NamedSecond(c); }
  }

  lemma LegacyIs(word: string)
    requires '.' !in word
    ensures Meaning(word) == Legacy(word)
  {
    hide FindName, Legacy;
    DotlessUnnamed(word, ORDER);
  }

  lemma ControlIs(word: string)
    requires |word| == 7 && word[0] == 'c' && word == "control"
    ensures Legacy(word) == {ControlStart, ControlStop, ControlRestart, ControlKill}
  {
  }

  lemma PowerIs(word: string)
    requires |word| == 5 && word[0] == 'p' && word == "power"
    ensures Legacy(word) == {ControlStart, ControlStop, ControlRestart, ControlKill}
  {
  }

  lemma ConsoleIs(word: string)
    requires |word| == 7 && word[0] == 'c' && word == "console"
    ensures Legacy(word) == {ConsoleRead, ConsoleWrite}
  {
  }

  lemma FilesIs(word: string)
    requires |word| == 5 && word[0] == 'f' && word == "files"
    ensures Legacy(word) == {FilesRead, FilesWrite}
  {
  }

  lemma BackupsIs(word: string)
    requires |word| == 7 && word[0] == 'b' && word == "backups"
    ensures Legacy(word) == {BackupsRead, BackupsWrite}
  {
  }

  lemma ScheduleIs(word: string)
    requires |word| == 8 && word[0] == 's' && word == "schedule"
    ensures Legacy(word) == {ScheduleRead, ScheduleWrite}
  {
  }

  lemma SchedulesIs(word: string)
    requires |word| == 9 && word[0] == 's' && word == "schedules"
    ensures Legacy(word) == {ScheduleRead, ScheduleWrite}
  {
  }

  lemma DatabaseIs(word: string)
    requires |word| == 8 && word[0] == 'd' && word == "database"
    ensures Legacy(word) == {DatabaseRead, DatabaseWrite}
  {
  }

  lemma DatabasesIs(word: string)
    requires |word| == 9 && word[0] == 'd' && word == "databases"
    ensures Legacy(word) == {DatabaseRead, DatabaseWrite}
  {
  }

  lemma StartupIs(word: string)
    requires |word| == 7 && word[0] == 's' && word == "startup"
    ensures Legacy(word) == {StartupUpdate, StartupInstall, StartupSecrets}
  {
  }

  lemma SubusersIs(word: string)
    requires |word| == 8 && word[0] == 's' && word == "subusers"
    ensures Legacy(word) == {SubusersRead, SubusersWrite}
  {
  }

  lemma AllocationIs(word: string)
    requires |word| == 10 && word[0] == 'a' && word == "allocation"
    ensures Legacy(word) == {AllocationRead, AllocationWrite}
  {
  }

  lemma AllocationsIs(word: string)
    requires |word| == 11 && word[0] == 'a' && word == "allocations"
    ensures Legacy(word) == {AllocationRead, AllocationWrite}
  {
  }

  lemma ActivityIs(word: string)
    requires |word| == 8 && word[0] == 'a' && word == "activity"
    ensures Legacy(word) == {ActivityRead}
  {
  }

  lemma StartIs(word: string)
    requires |word| == 5 && word[0] == 's' && word == "start"
    ensures Legacy(word) == {ControlStart}
  {
  }

  lemma StopIs(word: string)
    requires |word| == 4 && word[0] == 's' && word == "stop"
    ensures Legacy(word) == {ControlStop}
  {
  }

  lemma RestartIs(word: string)
    requires |word| == 7 && word[0] == 'r' && word == "restart"
    ensures Legacy(word) == {ControlRestart}
  {
  }

  lemma KillIs(word: string)
    requires |word| == 4 && word[0] == 'k' && word == "kill"
    ensures Legacy(word) == {ControlKill}
  {
  }

  lemma PowerWords(c: Capability)
    ensures c in Meaning("control") <==> CategoryOf(c) == Control
    ensures c in Meaning("power") <==> CategoryOf(c) == Control
    ensures c in Meaning("console") <==> CategoryOf(c) == Console
    ensures c in Meaning("files") <==> CategoryOf(c) == Files
    ensures c in Meaning("backups") <==> CategoryOf(c) == Backups
  {
    hide Meaning, Legacy;
    LegacyIs("control");
    ControlIs("control");
    LegacyIs("power");
    PowerIs("power");
    LegacyIs("console");
    ConsoleIs("console");
    LegacyIs("files");
    FilesIs("files");
    LegacyIs("backups");
    BackupsIs("backups");
  }

  lemma DataWords(c: Capability)
    ensures c in Meaning("schedule") <==> CategoryOf(c) == Schedule
    ensures c in Meaning("schedules") <==> CategoryOf(c) == Schedule
    ensures c in Meaning("database") <==> CategoryOf(c) == Database
    ensures c in Meaning("databases") <==> CategoryOf(c) == Database
  {
    hide Meaning, Legacy;
    LegacyIs("schedule");
    ScheduleIs("schedule");
    LegacyIs("schedules");
    SchedulesIs("schedules");
    LegacyIs("database");
    DatabaseIs("database");
    LegacyIs("databases");
    DatabasesIs("databases");
  }

  lemma AdminWords(c: Capability)
    ensures c in Meaning("startup") <==> CategoryOf(c) == Startup
    ensures c in Meaning("subusers") <==> CategoryOf(c) == Subusers
    ensures c in Meaning("allocation") <==> CategoryOf(c) == Allocation
    ensures c in Meaning("allocations") <==> CategoryOf(c) == Allocation
    ensures c in Meaning("activity") <==> CategoryOf(c) == Activity
  {
    hide Meaning, Legacy;
    LegacyIs("startup");
    StartupIs("startup");
    LegacyIs("subusers");
    SubusersIs("subusers");
    LegacyIs("allocation");
    AllocationIs("allocation");
    LegacyIs("allocations");
    AllocationsIs("allocations");
    LegacyIs("activity");
    ActivityIs("activity");
  }

  /** A bare category, in the singular or the plural of old, stands for every capability in
      it and nothing else; so does `power` for `control`. */
  lemma CategoryMeans(c: Capability)
    ensures c in Meaning("control") <==> CategoryOf(c) == Control
    ensures c in Meaning("power") <==> CategoryOf(c) == Control
    ensures c in Meaning("console") <==> CategoryOf(c) == Console
    ensures c in Meaning("files") <==> CategoryOf(c) == Files
    ensures c in Meaning("backups") <==> CategoryOf(c) == Backups
    ensures c in Meaning("schedule") <==> CategoryOf(c) == Schedule
    ensures c in Meaning("schedules") <==> CategoryOf(c) == Schedule
    ensures c in Meaning("database") <==> CategoryOf(c) == Database
    ensures c in Meaning("databases") <==> CategoryOf(c) == Database
    ensures c in Meaning("startup") <==> CategoryOf(c) == Startup
    ensures c in Meaning("subusers") <==> CategoryOf(c) == Subusers
    ensures c in Meaning("allocation") <==> CategoryOf(c) == Allocation
    ensures c in Meaning("allocations") <==> CategoryOf(c) == Allocation
    ensures c in Meaning("activity") <==> CategoryOf(c) == Activity
  {
    hide Meaning, CategoryOf;
    PowerWords(c);
    DataWords(c);
    AdminWords(c);
  }

  /** A bare verb stands for that one power action. */
  lemma VerbMeans()
    ensures Meaning("start") == {ControlStart}
    ensures Meaning("stop") == {ControlStop}
    ensures Meaning("restart") == {ControlRestart}
    ensures Meaning("kill") == {ControlKill}
  {
    hide Meaning, Legacy;
    LegacyIs("start");
    StartIs("start");
    LegacyIs("stop");
    StopIs("stop");
    LegacyIs("restart");
    RestartIs("restart");
    LegacyIs("kill");
    KillIs("kill");
  }

  predicate HasStar(tokens: seq<string>) {
    exists i | 0 <= i < |tokens| :: Trim(tokens[i]) == "*"
  }

  function Union(tokens: seq<string>): Caps {
    if tokens == [] then {} else Union(tokens[..|tokens| - 1]) + Meaning(Trim(tokens[|tokens| - 1]))
  }

  function Expanded(tokens: seq<string>): Caps {
    if HasStar(tokens) then ALL else Union(tokens)
  }

  /** `expand_legacy`: token by token, stopping at the first star. */
  method ExpandLegacy(tokens: seq<string>) returns (caps: Caps)
    ensures caps == Expanded(tokens)
  {
    hide Meaning, Trim;
    caps := {};
    for i := 0 to |tokens|
      invariant caps == Union(tokens[..i])
      invariant forall j :: 0 <= j < i ==> Trim(tokens[j]) != "*"
    {
      var token := Trim(tokens[i]);
      if token == "*" { return ALL; }
      assert tokens[..i + 1][..i] == tokens[..i];
      caps := caps + Meaning(token);
    }
    assert tokens[..|tokens|] == tokens;
  }

  // ---------------- Stored form ----------------

  /** A permissions cell: a JSON array of strings, or anything else. */
  datatype Cell = Corrupt | Tokens(tokens: seq<string>)

  function NamesIn(caps: Caps, from: seq<Capability>): seq<string> {
    if from == [] then []
    else (if from[0] in caps then [Name(from[0])] else []) + NamesIn(caps, from[1..])
  }

  function Names(caps: Caps): seq<string> {
    NamesIn(caps, ORDER)
  }

  lemma TrimmedName(c: Capability)
    ensures Trim(Name(c)) == Name(c) && Name(c) != "*" && Meaning(Name(c)) == {c}
  {
    hide Name, Space, FindName;
    NamePlain(c);
    InOrder(c);
    FindNamed(c, ORDER);
  }

  /** A token is one of the names written for `caps`. */
  lemma {:induction false} NamesAre(caps: Caps, from: seq<Capability>)
    ensures forall i :: 0 <= i < |NamesIn(caps, from)| ==> Named(caps, NamesIn(caps, from)[i])
    ensures forall c :: c in caps && c in from ==> Name(c) in NamesIn(caps, from)
  {
    hide Name;
    if from != [] {
      NamesAre(caps, from[1..]);
      if from[0] in caps { assert Named(caps, Name(from[0])); }
    }
  }

  ghost predicate Named(caps: Caps, s: string) {
    exists c :: c in caps && Name(c) == s
  }

  lemma {:induction false} UnionHas(tokens: seq<string>, i: nat)
    requires i < |tokens|
    ensures Meaning(Trim(tokens[i])) <= Union(tokens)
  {
    hide Meaning, Trim;
    var n := |tokens| - 1;
    if i < n { UnionHas(tokens[..n], i); }
  }

  lemma {:induction false} UnionOnly(tokens: seq<string>, caps: Caps)
    requires forall i :: 0 <= i < |tokens| ==> Meaning(Trim(tokens[i])) <= caps
    ensures Union(tokens) <= caps
  {
    hide Meaning, Trim;
    if tokens != [] { UnionOnly(tokens[..|tokens| - 1], caps); }
  }

  /** Writing a set and expanding what was written gives the set back. */
  lemma NamesExpand(caps: Caps)
    ensures Expanded(Names(caps)) == caps && !HasStar(Names(caps))
  {
    hide Meaning, Trim, Name, NamesIn;
    var tokens := Names(caps);
    NamesAre(caps, ORDER);
    forall i | 0 <= i < |tokens| ensures Trim(tokens[i]) != "*" && Meaning(Trim(tokens[i])) <= caps {
      assert Named(caps, tokens[i]);
      var c :| c in caps && Name(c) == tokens[i];
      TrimmedName(c);
    }
    UnionOnly(tokens, caps);
    forall c | c in caps ensures c in Union(tokens) {
      InOrder(c);
      var i :| 0 <= i < |tokens| && tokens[i] == Name(c);
      TrimmedName(c);
      UnionHas(tokens, i);
    }
  }

  datatype Grant = Grant(role: Role, caps: Caps)

  function New(role: Role, extra: Caps): Grant {
    Grant(role, Preset(role) + extra)
  }

  const OWNER: Grant := Grant(Manager, ALL)

  /** `checked_new`: the first capability, in order, the grantor lacks. */
  function FirstMissing(caps: Caps, held: Caps, from: seq<Capability>): Option<Capability> {
    if from == [] then None
    else if from[0] in caps && from[0] !in held then Some(from[0])
    else FirstMissing(caps, held, from[1..])
  }

  datatype Minted = Mint(grant: Grant) | CannotGrant(over: Capability)

  function CheckedNew(grantor: Grant, role: Role, extra: Caps): Minted {
    var g := New(role, extra);
    var over := FirstMissing(g.caps, grantor.caps, ORDER);
    if over.Some? then CannotGrant(over.value) else Mint(g)
  }

  /** The refusal names the first offender: it was asked for, it is not held, and whatever
      comes before it in order is no offence. */
  lemma {:induction false} MissingIsFirst(caps: Caps, held: Caps, from: seq<Capability>) returns (k: int)
    requires FirstMissing(caps, held, from).Some?
    ensures 0 <= k < |from| && from[k] == FirstMissing(caps, held, from).value && from[k] in caps && from[k] !in held
    ensures forall i :: 0 <= i < k ==> from[i] in caps ==> from[i] in held
  {
    if from[0] in caps && from[0] !in held {
      k := 0;
    } else {
      k := MissingIsFirst(caps, held, from[1..]);
      k := k + 1;
    }
  }

  lemma {:induction false} MissingExactly(caps: Caps, held: Caps, from: seq<Capability>)
    ensures FirstMissing(caps, held, from).None? <==> forall c :: c in from && c in caps ==> c in held
  {
    if from != [] { MissingExactly(caps, held, from[1..]); }
  }

  /** A grant is minted exactly when it is within the grantor's, preset included. */
  lemma MintedExactly(grantor: Grant, role: Role, extra: Caps)
    ensures CheckedNew(grantor, role, extra).Mint? <==> Preset(role) <= grantor.caps && extra <= grantor.caps
    ensures CheckedNew(grantor, role, extra).Mint? ==>
              CheckedNew(grantor, role, extra).grant == Grant(role, Preset(role) + extra)
    ensures CheckedNew(grantor, role, extra).CannotGrant? ==>
              exists k :: 0 <= k < |ORDER| && ORDER[k] == CheckedNew(grantor, role, extra).over
                          && ORDER[k] in (Preset(role) + extra) - grantor.caps
                          && forall i :: 0 <= i < k ==> ORDER[i] !in (Preset(role) + extra) - grantor.caps
  {
    hide Preset;
    var g := New(role, extra);
    MissingExactly(g.caps, grantor.caps, ORDER);
    if FirstMissing(g.caps, grantor.caps, ORDER).Some? {
      var k := MissingIsFirst(g.caps, grantor.caps, ORDER);
    }
    forall c: Capability ensures c in ORDER { InOrder(c); }
  }

  /** `from_stored` */
  function FromStored(role: string, cell: Cell): Grant {
    var r := ReadRole(role);
    var tokens := if cell.Corrupt? then [] else cell.tokens;
    var stored := if HasStar(tokens) then {} else Expanded(tokens);
    Grant(r, Preset(r) + stored)
  }

  function ToCell(g: Grant): Cell {
    Tokens(Names(g.caps))
  }

  /** A grant survives storage exactly when it holds its own role's preset. */
  lemma SurvivesStorageExactly(g: Grant)
    ensures FromStored(RoleName(g.role), ToCell(g)) == g <==> Preset(g.role) <= g.caps
  {
    hide Preset, Expanded, HasStar, Names, ReadRole, RoleName;
    NamesExpand(g.caps);
    RoleReadsBack(g.role);
  }

  lemma CustomIsEmpty()
    ensures Preset(Custom) == {}
  {
  }

  lemma HoldsPreset(role: string, cell: Cell)
    ensures Preset(FromStored(role, cell).role) <= FromStored(role, cell).caps
  {
    hide Preset, HasStar, Expanded;
  }

  /** Every way of making a grant makes one that survives. */
  lemma GrantsSurvive(role: Role, extra: Caps, stored: string, cell: Cell)
    ensures var g := New(role, extra); FromStored(RoleName(g.role), ToCell(g)) == g
    ensures var g := Grant(Custom, extra); FromStored(RoleName(g.role), ToCell(g)) == g
    ensures FromStored(RoleName(OWNER.role), ToCell(OWNER)) == OWNER
    ensures var g := FromStored(stored, cell); FromStored(RoleName(g.role), ToCell(g)) == g
  {
    hide FromStored, ToCell, RoleName, Preset;
    SurvivesStorageExactly(New(role, extra));
    CustomIsEmpty();
    SurvivesStorageExactly(Grant(Custom, extra));
    ManagerIsAll();
    HoldsPreset(stored, cell);
    SurvivesStorageExactly(OWNER);
    SurvivesStorageExactly(FromStored(stored, cell));
  }

  // ---------------- The migration ----------------

  datatype Row = Row(id: int, role: string, cell: Cell)

  function MatchingRole(caps: Caps, from: seq<Role>): Role {
    if from == [] then Custom
    else if Preset(from[0]) == caps then from[0]
    else MatchingRole(caps, from[1..])
  }

  function Rewritten(row: Row): Row {
    if row.cell.Corrupt? then row
    else
      var caps := Expanded(row.cell.tokens);
      row.(role := RoleName(MatchingRole(caps, PRESETS)), cell := Tokens(Names(caps)))
  }

  lemma {:induction false} MatchesOrCustom(caps: Caps, from: seq<Role>)
    ensures Preset(MatchingRole(caps, from)) <= caps
    ensures MatchingRole(caps, from) != Custom ==> Preset(MatchingRole(caps, from)) == caps
    ensures forall r :: r in from && r != Custom && Preset(r) == caps ==> MatchingRole(caps, from) != Custom
  {
    if from != [] { MatchesOrCustom(caps, from[1..]); }
  }

  /** Reading a rewritten row grants what the old tokens expand to, the star included, and
      nothing else; corrupt rows are not touched; a second pass changes nothing. */
  lemma RewriteMeans(row: Row)
    ensures row.cell.Tokens? ==> FromStored(Rewritten(row).role, Rewritten(row).cell).caps == Expanded(row.cell.tokens)
    ensures row.cell.Corrupt? ==> Rewritten(row) == row
    ensures Rewritten(Rewritten(row)) == Rewritten(row) && Rewritten(row).id == row.id
    ensures row.cell.Tokens? ==> forall r :: r in PRESETS ==>
              (ReadRole(Rewritten(row).role) == r ==> Preset(r) == Expanded(row.cell.tokens))
              && (Preset(r) == Expanded(row.cell.tokens) ==> ReadRole(Rewritten(row).role) != Custom)
  {
    hide Preset, Expanded, HasStar, Names, RoleName, MatchingRole, ReadRole;
    if row.cell.Tokens? {
      var caps := Expanded(row.cell.tokens);
      NamesExpand(caps);
      MatchesOrCustom(caps, PRESETS);
      RoleReadsBack(MatchingRole(caps, PRESETS));
    }
  }

  /** Reading errs on the side of less: a corrupt cell adds nothing to the preset, and an
      unknown role has none. */
  lemma ReadsFailClosed(role: string, cell: Cell)
    ensures cell.Corrupt? ==> FromStored(role, cell).caps == Preset(FromStored(role, cell).role)
    ensures (forall r :: role != RoleName(r)) ==> FromStored(role, cell).role == Custom && Preset(Custom) == {}
  {
    hide Preset;
    CustomIsEmpty();
    assert Expanded([]) == {};
    if FromStored(role, cell).role != Custom { assert role == RoleName(FromStored(role, cell).role); }
  }

  /** Before the migration a star on a live read grants nothing beyond the preset; after it,
      everything. */
  lemma StarNeedsMigration(row: Row)
    requires row.cell.Tokens? && HasStar(row.cell.tokens)
    ensures FromStored(row.role, row.cell).caps == Preset(ReadRole(row.role))
    ensures FromStored(Rewritten(row).role, Rewritten(row).cell).caps == ALL
  {
    RewriteMeans(row);
  }

  /** `normalize_subuser_permissions`: each row rewritten in place. */
  method NormalizeSubuserPermissions(rows: array<Row>)
    modifies rows
    ensures forall i :: 0 <= i < rows.Length ==> rows[i] == Rewritten(old(rows[i]))
  {
    hide Preset, Expanded, Names, RoleName;
    for i := 0 to rows.Length
      invariant forall j :: 0 <= j < i ==> rows[j] == Rewritten(old(rows[j]))
      invariant forall j :: i <= j < rows.Length ==> rows[j] == old(rows[j])
    {
      var row := rows[i];
      if row.cell.Tokens? {
        var caps := ExpandLegacy(row.cell.tokens);
        var role := MatchingRole(caps, PRESETS);
        rows[i] := row.(role := RoleName(role), cell := Tokens(Names(caps)));
      }
    }
  }
}
