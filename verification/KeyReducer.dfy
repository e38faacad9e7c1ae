/**
 * What a key press does: the next state and the effects the shell performs, over every interleaving of keys
 * and background updates.
 */
module KeyReducer {
  import opened Prelude
  import opened AppState

  const KEY_UP := "\U{1b}[A"
  const KEY_DOWN := "\U{1b}[B"
  const KEY_TAB := "\t"
  const VISIBLE_COUNT := 5

  datatype Provider = Google | Github | Microsoft

  const AUTH_PROVIDERS := [Google, Github, Microsoft]

  datatype Effect =
    | Exit
    | OpenBrowser(project: Project)
    | OpenStudio(project: Project)
    | OpenIde(project: Project)
    | Pull(project: Project)
    | Push(project: Project)
    | Login(provider: Provider)
    | Logout
    | OpenMcpSettings
    | CreateProject(template: string, name: string)

  datatype KeyResult = KeyResult(state: App, effects: seq<Effect>)

  function Quiet(s: App): KeyResult {
    KeyResult(s, [])
  }

  predicate IsEnter(key: string) {
    key == KEY_ENTER || key == KEY_NEWLINE
  }

  predicate IsUp(key: string) {
    key == KEY_UP || key == "k"
  }

  predicate IsDown(key: string) {
    key == KEY_DOWN || key == "j"
  }

  /** `key >= "1" && key <= last` as strings: a key is a chunk of input and may hold several characters. */
  predicate InRange(key: string, last: char) {
    key != "" && '1' <= key[0] && (key[0] < last || key == [last])
  }

  /** `Number.parseInt(key, 10)` for a key that starts with a digit. */
  function ParseInt(key: string): nat {
    ParseNat(key[..DigitRun(key)])
  }

  function ReduceKey(s: App, key: string, suggestion: string): KeyResult
    requires s.input.cursor <= |s.input.value|
  {
    if s.input.active then ReduceInputKey(s, key)
    else if key == KEY_CTRL_C || (key == "q" && s.view == Dashboard) then KeyResult(s, [Exit])
    else if key == KEY_ESCAPE then Quiet(if s.view == Dashboard then s else GoBack(s))
    else
      match s.view
      case Templates => ReduceTemplatesKey(s, key, suggestion)
      case NewProject => ReduceNewProjectKey(s, key, suggestion)
      case Auth => ReduceAuthKey(s, key)
      case Help => Quiet(GoBack(s))
      case Dashboard => ReduceDashboardKey(s, key)
  }

  function ReduceInputKey(s: App, key: string): KeyResult
    requires s.input.cursor <= |s.input.value|
  {
    match HandleInputKey(key, s.input.value, s.input.cursor)
    case Edit(value, cursor) => Quiet(s.(input := s.input.(value := value, cursor := cursor)))
    case Cancel => Quiet(EndInput(s))
    case Submit =>
      var name := Trim(s.input.value);
      var settled := NavigateTo(EndInput(s), Dashboard);
      if s.input.purpose.Some? && name != "" then
        KeyResult(settled, [CreateProject(s.input.purpose.value.template, name)])
      else Quiet(settled)
  }

  function PromptForProjectName(s: App, template: string, suggestion: string): App {
    StartInput(s, "Project name", CreateProjectFrom(template), suggestion)
  }

  function ReduceTemplatesKey(s: App, key: string, suggestion: string): KeyResult {
    var l := s.templates;
    if IsUp(key) then Quiet(s.(templates := MoveUp(l)))
    else if IsDown(key) then Quiet(s.(templates := MoveDown(l, |l.items|)))
    else if IsEnter(key) && l.selectedIndex < |l.items| then
      Quiet(PromptForProjectName(s, l.items[l.selectedIndex].id, suggestion))
    else Quiet(s)
  }

  function ReduceNewProjectKey(s: App, key: string, suggestion: string): KeyResult {
    if IsUp(key) then Quiet(s.(newProjectIndex := if s.newProjectIndex > 0 then s.newProjectIndex - 1 else 1))
    else if IsDown(key) then Quiet(s.(newProjectIndex := if s.newProjectIndex < 1 then s.newProjectIndex + 1 else 0))
    else if !InRange(key, '2') && !IsEnter(key) then Quiet(s)
    else
      var index := if InRange(key, '2') then NumberBefore(key) else s.newProjectIndex;
      var picked := s.(newProjectIndex := index);
      Quiet(if index == 0 then NavigateTo(picked, Templates) else PromptForProjectName(picked, "minimal", suggestion))
  }

  /** The index a number key stands for; numbers here start with `1` to `9`. */
  function NumberBefore(key: string): (n: nat)
    requires InRange(key, '9')
  {
    PositiveNumber(key);
    ParseInt(key) - 1
  }

  lemma {:induction false} ParseNatPositive(s: string)
    requires s != "" && (forall i :: 0 <= i < |s| ==> IsDigit(s[i])) && s[0] != '0'
    ensures ParseNat(s) > 0
    ensures |s| > 1 ==> ParseNat(s) >= 10
  {
    if |s| > 1 { ParseNatPositive(s[..|s| - 1]); }
  }

  lemma PositiveNumber(key: string)
    requires InRange(key, '9')
    ensures ParseInt(key) > 0
  {
    ParseNatPositive(key[..DigitRun(key)]);
  }

  function ReduceAuthKey(s: App, key: string): KeyResult {
    if IsUp(key) then Quiet(s.(authProviderIndex := if s.authProviderIndex > 0 then s.authProviderIndex - 1 else 2))
    else if IsDown(key) then Quiet(s.(authProviderIndex := if s.authProviderIndex < 2 then s.authProviderIndex + 1 else 0))
    else if !InRange(key, '3') && !IsEnter(key) then Quiet(s)
    else
      var index := if InRange(key, '3') then NumberBefore(key) else s.authProviderIndex;
      if index >= |AUTH_PROVIDERS| then Quiet(s)
      else
        var provider := AUTH_PROVIDERS[index];
        KeyResult(NavigateTo(AddLog(s.(authProviderIndex := index), LoginLog(provider)), Dashboard), [Login(provider)])
  }

  function LoginLog(provider: Provider): Log {
    Log(Info, "Opening browser for "
      + (match provider case Google => "google" case Github => "github" case Microsoft => "microsoft")
      + " login...")
  }

  function ReduceDashboardKey(s: App, key: string): KeyResult {
    if key == "l" || key == "L" then Quiet(ToggleLogsExpanded(s))
    else if s.logsExpanded && s.logs != [] && (IsUp(key) || IsDown(key)) then Quiet(ScrollLogs(s, IsUp(key)))
    else if IsUp(key) then Quiet(SetListOf(s, MoveUp(ListOf(s))))
    else if IsDown(key) then Quiet(SetListOf(s, MoveDown(ListOf(s), VISIBLE_COUNT)))
    else if key == KEY_TAB then Quiet(SwitchSection(s))
    else if key == "a" && s.user.None? then Quiet(NavigateTo(s, Auth))
    else if key == "x" && s.user.Some? then KeyResult(s, [Logout])
    else if key == "n" then Quiet(NavigateTo(s.(newProjectIndex := 0), NewProject))
    else if key == "?" then Quiet(s.(showHelp := !s.showHelp))
    else if key == "m" && s.mcp.enabled then KeyResult(s, [OpenMcpSettings])
    else if InRange(key, '9') then PickNumber(s, NumberBefore(key) + 1)
    else
      var l := ListOf(s);
      if l.selectedIndex >= |l.items| || l.items[l.selectedIndex].data.None? then Quiet(s)
      else ReduceProjectKey(s, key, l.items[l.selectedIndex].data.value)
  }

  function PickNumber(s: App, num: nat): KeyResult
    requires num > 0
  {
    var l := ListOf(s);
    if num > |l.items| then Quiet(s)
    else
      var picked := SetListOf(s, ScrollIntoView(SelectByNumber(l, num), VISIBLE_COUNT));
      var data := l.items[num - 1].data;
      if data.Some? then KeyResult(picked, [OpenBrowser(data.value)]) else Quiet(picked)
  }

  function ReduceProjectKey(s: App, key: string, project: Project): KeyResult {
    if IsEnter(key) || key == "o" then KeyResult(s, [OpenBrowser(project)])
    else if key == "s" then KeyResult(s, [OpenStudio(project)])
    else if key == "i" then KeyResult(s, [OpenIde(project)])
    else if key == "p" then KeyResult(s, [Pull(project)])
    else if key == "u" && project.kind == Local then KeyResult(s, [Push(project)])
    else Quiet(s)
  }

  /** Goes to the other section when both are shown. */
  function SwitchSection(s: App): App {
    if s.projects.items == [] || !RemoteSelectable(s) then s
    else s.(activeList := if s.activeList == Projects then RemoteProjects else Projects)
  }

  // ----- One step -----

  /** The messages a key adds to the log. */
  function MessagesOf(s: App, key: string, suggestion: string): seq<Log>
    requires s.input.cursor <= |s.input.value|
  {
    var effects := ReduceKey(s, key, suggestion).effects;
    if effects != [] && effects[0].Login? then [LoginLog(effects[0].provider)] else []
  }

  /** The state changes a dashboard key can make, apart from moves within the active list. */
  ghost predicate DashboardMove(s: App, r: App) {
    || r == s
    || r == ToggleLogsExpanded(s)
    || r == ScrollLogs(s, true) || r == ScrollLogs(s, false)
    || r == SwitchSection(s)
    || r == NavigateTo(s, Auth)
    || r == NavigateTo(s.(newProjectIndex := 0), NewProject)
    || r == s.(showHelp := !s.showHelp)
  }

  /** A move of selection or window within the active list. */
  ghost predicate ListMove(s: App, r: App) {
    exists l :: r == SetListOf(s, l) && ListOk(l) && l.items == ListOf(s).items
  }

  lemma DashboardMoves(s: App, key: string)
    ensures
      var r := ReduceDashboardKey(s, key);
      || DashboardMove(s, r.state)
      || r.state == SetListOf(s, MoveUp(ListOf(s))) || r.state == SetListOf(s, MoveDown(ListOf(s), VISIBLE_COUNT))
      || (InRange(key, '9') && r == PickNumber(s, NumberBefore(key) + 1))
  {}

  lemma PickMoves(s: App, num: nat)
    requires ListOk(ListOf(s)) && num > 0
    ensures ListMove(s, PickNumber(s, num).state)
  {
    ListMovesOk(ListOf(s), VISIBLE_COUNT, num);
    assert SetListOf(s, ListOf(s)) == s;
  }

  lemma DashboardMovesOk(s: App, key: string)
    requires ListOk(ListOf(s))
    ensures DashboardMove(s, ReduceDashboardKey(s, key).state) || ListMove(s, ReduceDashboardKey(s, key).state)
  {
    DashboardMoves(s, key);
    ListMovesOk(ListOf(s), VISIBLE_COUNT, 0);
    if InRange(key, '9') { PickMoves(s, NumberBefore(key) + 1); }
  }

  lemma ListMoveKeeps(s: App, l: ListState)
    requires Core(s) && ListOk(l) && l.items == ListOf(s).items
    ensures Core(SetListOf(s, l)) && SameLogs(s, SetListOf(s, l))
  {
    var r := SetListOf(s, l);
    assert IndicesOk(r) && SelectionOk(r);
  }

  lemma MoveKeeps(s: App, r: App)
    requires Core(s) && !s.input.active && DashboardMove(s, r)
    ensures Core(r) && SameLogs(s, r)
  {
    if r == SwitchSection(s) {
    } else if r == ToggleLogsExpanded(s) || r == s.(showHelp := !s.showHelp) {
    } else if r == ScrollLogs(s, true) || r == ScrollLogs(s, false) {
    } else {
      NavigationKeeps(s, r);
    }
  }

  lemma NavigationKeeps(s: App, r: App)
    requires Core(s) && !s.input.active
    requires r == s || r == NavigateTo(s, Auth) || r == NavigateTo(s.(newProjectIndex := 0), NewProject)
    ensures Core(r) && SameLogs(s, r)
  {}

  lemma DashboardKeeps(s: App, key: string)
    requires Core(s) && !s.input.active
    ensures Core(ReduceDashboardKey(s, key).state) && SameLogs(s, ReduceDashboardKey(s, key).state)
  {
    DashboardMovesOk(s, key);
    if DashboardMove(s, ReduceDashboardKey(s, key).state) {
      MoveKeeps(s, ReduceDashboardKey(s, key).state);
    } else {
      var l :| ReduceDashboardKey(s, key).state == SetListOf(s, l) && ListOk(l) && l.items == ListOf(s).items;
      ListMoveKeeps(s, l);
    }
  }

  lemma DashboardLogsNothing(s: App, key: string)
    ensures
      var effects := ReduceDashboardKey(s, key).effects;
      |effects| <= 1 && (effects != [] ==> !effects[0].Login?)
  {}

  lemma InputKeeps(s: App, key: string)
    requires Core(s) && s.input.active
    ensures Core(ReduceInputKey(s, key).state) && SameLogs(s, ReduceInputKey(s, key).state)
  {
    match HandleInputKey(key, s.input.value, s.input.cursor)
    case Edit(value, cursor) => EditKeeps(s, value, cursor);
    case Cancel => EndKeeps(s);
    case Submit => EndKeeps(s);
  }

  lemma EditKeeps(s: App, value: string, cursor: nat)
    requires Core(s) && s.input.active && cursor <= |value|
    ensures Core(s.(input := s.input.(value := value, cursor := cursor)))
  {}

  lemma EndKeeps(s: App)
    requires Core(s)
    ensures Core(EndInput(s)) && Core(NavigateTo(EndInput(s), Dashboard))
  {}

  lemma TemplatesKeeps(s: App, key: string, suggestion: string)
    requires Core(s) && s.view == Templates && !s.input.active
    ensures
      var r := ReduceTemplatesKey(s, key, suggestion).state;
      Core(r) && SameLogs(s, r)
  {
    TemplatesMoves(s, key, suggestion);
    TemplateListMoves(s.templates);
    TemplateListKeeps(s, MoveUp(s.templates));
    TemplateListKeeps(s, MoveDown(s.templates, |s.templates.items|));
    forall template: string { TemplatePromptKeeps(s, template, suggestion); }
  }

  /** What a key can do in the template list. */
  lemma TemplatesMoves(s: App, key: string, suggestion: string)
    ensures
      var r := ReduceTemplatesKey(s, key, suggestion).state;
      || r == s
      || r == s.(templates := MoveUp(s.templates))
      || r == s.(templates := MoveDown(s.templates, |s.templates.items|))
      || exists template :: r == PromptForProjectName(s, template, suggestion)
  {}

  lemma TemplateListMoves(l: ListState)
    requires ListOk(l)
    ensures ListOk(MoveUp(l)) && ListOk(MoveDown(l, |l.items|))
  {}

  lemma TemplateListKeeps(s: App, l: ListState)
    requires Core(s) && ListOk(l)
    ensures Core(s.(templates := l)) && SameLogs(s, s.(templates := l))
  {}

  lemma TemplatePromptKeeps(s: App, template: string, suggestion: string)
    requires Core(s) && s.view == Templates
    ensures
      var r := PromptForProjectName(s, template, suggestion);
      Core(r) && SameLogs(s, r)
  {}

  /** What a key can do in the new-project menu. */
  lemma NewProjectMoves(s: App, key: string, suggestion: string)
    ensures
      var r := ReduceNewProjectKey(s, key, suggestion);
      && r.effects == []
      && exists i: nat ::
           || r.state == s.(newProjectIndex := i)
           || r.state == NavigateTo(s.(newProjectIndex := i), Templates)
           || r.state == PromptForProjectName(s.(newProjectIndex := i), "minimal", suggestion)
  {
    var up: nat := if s.newProjectIndex > 0 then s.newProjectIndex - 1 else 1;
    var down: nat := if s.newProjectIndex < 1 then s.newProjectIndex + 1 else 0;
    var index := if InRange(key, '2') then NumberBefore(key) else s.newProjectIndex;
    assert s == s.(newProjectIndex := s.newProjectIndex);
  }

  lemma PromptKeeps(s: App, i: nat, template: string, suggestion: string)
    requires Core(s) && (s.view == NewProject || s.view == Templates)
    ensures Core(PromptForProjectName(s.(newProjectIndex := i), template, suggestion))
  {}

  lemma NewProjectKeeps(s: App, key: string, suggestion: string)
    requires Core(s) && s.view == NewProject && !s.input.active
    ensures
      var r := ReduceNewProjectKey(s, key, suggestion).state;
      Core(r) && SameLogs(s, r)
  {
    NewProjectMoves(s, key, suggestion);
    forall i: nat { PromptKeeps(s, i, "minimal", suggestion); }
  }

  lemma AuthKeeps(s: App, messages: seq<Log>, key: string)
    requires Invariant(s, messages) && s.view == Auth && !s.input.active
    ensures
      var r := ReduceAuthKey(s, key);
      var more := if r.effects != [] && r.effects[0].Login? then [LoginLog(r.effects[0].provider)] else [];
      Invariant(r.state, messages + more)
  {
    assert messages + [] == messages;
    if !IsUp(key) && !IsDown(key) && (InRange(key, '3') || IsEnter(key)) {
      var index := if InRange(key, '3') then NumberBefore(key) else s.authProviderIndex;
      if index < |AUTH_PROVIDERS| { SignInKeeps(s, messages, index, LoginLog(AUTH_PROVIDERS[index])); }
    } else {
      AuthMenuKeeps(s, key);
    }
  }

  lemma AuthMenuKeeps(s: App, key: string)
    requires Core(s) && (IsUp(key) || IsDown(key) || (!InRange(key, '3') && !IsEnter(key)))
    ensures
      var r := ReduceAuthKey(s, key);
      Core(r.state) && SameLogs(s, r.state) && r.effects == []
  {}

  lemma SignInKeeps(s: App, messages: seq<Log>, index: nat, log: Log)
    requires Invariant(s, messages) && !s.input.active && index < 3
    ensures Invariant(NavigateTo(AddLog(s.(authProviderIndex := index), log), Dashboard), messages + [log])
  {
    AddLogKeeps(s, messages, log);
  }

  /** Every key keeps the invariant, whatever the state and the key. */
  lemma KeyKeeps(s: App, messages: seq<Log>, key: string, suggestion: string)
    requires Invariant(s, messages)
    ensures Invariant(ReduceKey(s, key, suggestion).state, messages + MessagesOf(s, key, suggestion))
  {
    if s.input.active {
      InputKeeps(s, key);
      assert messages + [] == messages;
    } else if IsGlobal(s, key) {
      GlobalKeeps(s, key);
      assert messages + [] == messages;
    } else if s.view == Auth {
      AuthKeeps(s, messages, key);
    } else {
      ViewKeeps(s, key, suggestion);
      assert messages + [] == messages;
    }
  }

  /** The keys every view handles alike. */
  predicate IsGlobal(s: App, key: string) {
    key == KEY_CTRL_C || (key == "q" && s.view == Dashboard) || key == KEY_ESCAPE
  }

  lemma GlobalKeeps(s: App, key: string)
    requires Core(s) && !s.input.active && IsGlobal(s, key)
    ensures Core(s) && Core(GoBack(s)) && SameLogs(s, GoBack(s))
  {}

  /** A step within a view that adds no message. */
  ghost predicate KeepsQuietly(s: App, r: KeyResult) {
    Core(r.state) && SameLogs(s, r.state) && (r.effects != [] ==> !r.effects[0].Login?)
  }

  lemma ViewKeeps(s: App, key: string, suggestion: string)
    requires Core(s) && !s.input.active && s.view != Auth && !IsGlobal(s, key)
    ensures KeepsQuietly(s, ReduceKey(s, key, suggestion))
  {
    match s.view
    case Templates => TemplatesKeeps(s, key, suggestion);
    case NewProject => NewProjectKeeps(s, key, suggestion);
    case Dashboard =>
      DashboardKeeps(s, key);
      DashboardLogsNothing(s, key);
  }

  // ----- Runs -----

  /** Keys, and the updaters the shell and its background work call. */
  datatype Event =
    | Key(key: string, suggestion: string)
    | ProjectsLoaded(items: seq<Item>)
    | RemoteProjectsLoaded(items: seq<Item>)
    | TemplatesLoaded(items: seq<Item>)
    | UserChanged(user: Option<string>)
    | Logged(log: Log)
    | ServerChanged(server: Server)
    | McpChanged(mcp: Mcp)

  function Apply(s: App, e: Event): App
    requires s.input.cursor <= |s.input.value|
  {
    match e
    case Key(key, suggestion) => ReduceKey(s, key, suggestion).state
    case ProjectsLoaded(items) => SetProjects(s, items)
    case RemoteProjectsLoaded(items) => SetRemoteProjects(s, items)
    case TemplatesLoaded(items) => SetTemplates(s, items)
    case UserChanged(user) => SetRemoteUser(s, user)
    case Logged(log) => AddLog(s, log)
    case ServerChanged(server) => s.(server := server)
    case McpChanged(mcp) => s.(mcp := mcp)
  }

  function Messages(s: App, e: Event): seq<Log>
    requires s.input.cursor <= |s.input.value|
  {
    match e
    case Key(key, suggestion) => MessagesOf(s, key, suggestion)
    case Logged(log) => [log]
    case _ => []
  }

  lemma UpdateKeeps(s: App, e: Event)
    requires Core(s) && !e.Key? && !e.Logged?
    ensures Core(Apply(s, e)) && SameLogs(s, Apply(s, e))
  {}

  lemma EventKeeps(s: App, messages: seq<Log>, e: Event)
    requires Invariant(s, messages)
    ensures Invariant(Apply(s, e), messages + Messages(s, e))
  {
    match e
    case Key(key, suggestion) => KeyKeeps(s, messages, key, suggestion);
    case Logged(log) => LoggedKeeps(s, messages, log);
    case _ =>
      UpdateKeeps(s, e);
      assert messages + Messages(s, e) == messages;
  }

  lemma LoggedKeeps(s: App, messages: seq<Log>, log: Log)
    requires Invariant(s, messages)
    ensures Invariant(AddLog(s, log), messages + [log])
  {
    AddLogKeeps(s, messages, log);
  }

  lemma InitialOk()
    ensures Invariant(INITIAL, [])
  {
    assert ListOk(CreateList([]));
  }

  /** The state after a run of events, with every message logged on the way. */
  ghost function Run(events: seq<Event>): (r: (App, seq<Log>))
    ensures Invariant(r.0, r.1)
  {
    if events == [] then
      InitialOk();
      (INITIAL, [])
    else
      var (s, messages) := Run(events[..|events| - 1]);
      var e := events[|events| - 1];
      EventKeeps(s, messages, e);
      (Apply(s, e), messages + Messages(s, e))
  }

  // ----- The new-project menu -----

  /** A chunk such as "12": between "1" and "2" as a string, but a number beyond the menu. */
  predicate Overshoots(key: string) {
    |key| > 1 && key[0] == '1' && IsDigit(key[1])
  }

  lemma OvershootsIff(key: string)
    requires InRange(key, '2')
    ensures NumberBefore(key) < 2 <==> !Overshoots(key)
  {
    var n := DigitRun(key);
    ParseNatPositive(key[..n]);
    if !Overshoots(key) {
      assert n == 1;
      assert key[..1][..0] == "";
    } else {
      assert DigitRun(key[1..]) >= 1;
    }
  }

  /** A key leaves the new-project index in range exactly unless it overshoots while that menu takes keys. */
  lemma MenuIndexIff(s: App, key: string, suggestion: string)
    requires Core(s) && s.newProjectIndex < 2
    ensures ReduceKey(s, key, suggestion).state.newProjectIndex < 2 <==>
      !(s.view == NewProject && !s.input.active && Overshoots(key))
  {
    NewProjectIndexIff(s, key, suggestion);
    OtherViewsKeepIndex(s, key, suggestion);
    DashboardKeepsIndex(s, key);
  }

  lemma NewProjectIndexIff(s: App, key: string, suggestion: string)
    requires s.newProjectIndex < 2
    ensures ReduceNewProjectKey(s, key, suggestion).state.newProjectIndex < 2 <==> !Overshoots(key)
  {
    if InRange(key, '2') { OvershootsIff(key); }
  }

  lemma OtherViewsKeepIndex(s: App, key: string, suggestion: string)
    requires s.input.cursor <= |s.input.value|
    ensures ReduceTemplatesKey(s, key, suggestion).state.newProjectIndex == s.newProjectIndex
    ensures ReduceAuthKey(s, key).state.newProjectIndex == s.newProjectIndex
    ensures ReduceInputKey(s, key).state.newProjectIndex == s.newProjectIndex
  {}

  lemma DashboardKeepsIndex(s: App, key: string)
    requires s.newProjectIndex < 2
    ensures ReduceDashboardKey(s, key).state.newProjectIndex < 2
  {
    DashboardMoves(s, key);
  }

  /** Without such chunks the index is in range over the whole run. */
  lemma {:induction false} MenuIndexOverRuns(events: seq<Event>)
    requires forall i :: 0 <= i < |events| && events[i].Key? ==> !Overshoots(events[i].key)
    ensures Run(events).0.newProjectIndex < 2
  {
    if events != [] {
      var init, e := events[..|events| - 1], events[|events| - 1];
      MenuIndexOverRuns(init);
      MenuIndexOverStep(Run(init).0, e);
    }
  }

  lemma MenuIndexOverStep(s: App, e: Event)
    requires Core(s) && s.newProjectIndex < 2 && (e.Key? ==> !Overshoots(e.key))
    ensures Apply(s, e).newProjectIndex < 2
  {
    if e.Key? { MenuIndexIff(s, e.key, e.suggestion); }
  }

  lemma RunSnoc(events: seq<Event>, e: Event)
    ensures Run(events + [e]).0 == Apply(Run(events).0, e)
  {
    assert (events + [e])[..|events + [e]| - 1] == events;
  }

  lemma RunOne(a: Event)
    ensures Run([a]).0 == Apply(INITIAL, a)
  {
    assert [] + [a] == [a];
    RunSnoc([], a);
  }

  lemma TwelveOvershoots()
    ensures InRange("12", '2') && NumberBefore("12") == 11
    ensures !IsUp("12") && !IsDown("12")
  {
    assert "12"[1..] == "2" && "2"[1..] == "" && DigitRun("12") == 2;
    assert "12"[..2] == "12" && "12"[..1] == "1" && "1"[..0] == "";
    assert ParseNat("1") == 1 && ParseNat("12") == 12;
  }

  lemma OpensMenu()
    ensures
      var s := Apply(INITIAL, Key("n", ""));
      s.view == NewProject && s.input == NO_INPUT && s.newProjectIndex == 0
  {}

  /** Typing `n` and then pasting `12` selects row 11 of a menu with two rows. */
  lemma PastedNumberOvershoots()
    ensures Run([Key("n", ""), Key("12", "")]).0.newProjectIndex == 11
  {
    OpensMenu();
    TwelveOvershoots();
    PicksAfter(Key("n", ""), "12");
  }

  lemma PicksAfter(first: Event, key: string)
    requires Apply(INITIAL, first).view == NewProject && Apply(INITIAL, first).input == NO_INPUT
    requires InRange(key, '2') && key[0] == '1' && !IsUp(key) && !IsDown(key)
    ensures Run([first, Key(key, "")]).0.newProjectIndex == NumberBefore(key)
  {
    assert [first] + [Key(key, "")] == [first, Key(key, "")];
    RunSnoc([first], Key(key, ""));
    RunOne(first);
    PicksRow(Run([first]).0, key);
  }

  lemma PicksRow(s: App, key: string)
    requires s.view == NewProject && !s.input.active && s.input.cursor <= |s.input.value|
    requires InRange(key, '2') && key[0] == '1' && !IsUp(key) && !IsDown(key)
    ensures ReduceKey(s, key, "").state.newProjectIndex == NumberBefore(key)
  {
    assert key != KEY_CTRL_C && key != KEY_ESCAPE;
  }

  /** Six projects and one key up: the last row is selected, the first five are shown. */
  lemma WrapLeavesWindow(items: seq<Item>)
    requires |items| == 6
    ensures
      var s := Run([ProjectsLoaded(items), Key("k", "")]).0;
      s.view == Dashboard && s.projects.selectedIndex == 5 && !Shown(s.projects, VISIBLE_COUNT)
  {
    assert [ProjectsLoaded(items)] + [Key("k", "")] == [ProjectsLoaded(items), Key("k", "")];
    RunSnoc([ProjectsLoaded(items)], Key("k", ""));
    RunOne(ProjectsLoaded(items));
    WrapsUp(SetProjects(INITIAL, items));
  }

  lemma WrapsUp(s: App)
    requires s.view == Dashboard && s.input == NO_INPUT && !s.logsExpanded && s.activeList == Projects
    requires |s.projects.items| == 6 && s.projects.selectedIndex == 0 == s.projects.scrollOffset
    ensures
      var r := ReduceKey(s, "k", "").state;
      r.view == Dashboard && r.projects.selectedIndex == 5 && !Shown(r.projects, VISIBLE_COUNT)
  {
    var l := MoveUp(s.projects);
    assert ReduceDashboardKey(s, "k").state == s.(projects := l);
  }

  // ----- Escape -----

  function Escape(s: App): App
    requires s.input.cursor <= |s.input.value|
  {
    ReduceKey(s, KEY_ESCAPE, "").state
  }

  /** With no prompt open, at most two Escapes reach the dashboard; one more closes an open prompt first. */
  lemma EscapeReachesDashboard(s: App)
    requires InputOk(s)
    ensures !s.input.active ==> Escape(Escape(s)).view == Dashboard && !Escape(s).input.active
    ensures s.input.active ==> Escape(s) == EndInput(s) && Escape(Escape(Escape(s))).view == Dashboard
  {}

  // ----- Effects -----

  /** An item of the active list holds the project. */
  ghost predicate Listed(s: App, p: Project) {
    exists i :: 0 <= i < |ListOf(s).items| && ListOf(s).items[i].data == Some(p)
  }

  /** When the reducer may ask for an effect. */
  ghost predicate Justified(s: App, e: Effect) {
    match e
    case Exit => !s.input.active
    case OpenBrowser(p) => s.view == Dashboard && Listed(s, p)
    case OpenStudio(p) => s.view == Dashboard && Listed(s, p)
    case OpenIde(p) => s.view == Dashboard && Listed(s, p)
    case Pull(p) => s.view == Dashboard && Listed(s, p)
    case Push(p) => s.view == Dashboard && Listed(s, p) && p.kind == Local
    case Login(_) => s.view == Auth
    case Logout => s.user.Some?
    case OpenMcpSettings => s.mcp.enabled
    case CreateProject(template, name) =>
      s.input.active && s.input.purpose == Some(CreateProjectFrom(template)) && name == Trim(s.input.value) && name != ""
  }

  lemma DashboardEffects(s: App, key: string)
    requires s.view == Dashboard && !s.input.active
    ensures forall e :: e in ReduceDashboardKey(s, key).effects ==> Justified(s, e)
  {}

  /** A key asks for at most one effect, and only where it makes sense. */
  lemma EffectsJustified(s: App, key: string, suggestion: string)
    requires InputOk(s)
    ensures |ReduceKey(s, key, suggestion).effects| <= 1
    ensures forall e :: e in ReduceKey(s, key, suggestion).effects ==> Justified(s, e)
  {
    if s.view == Dashboard && !s.input.active {
      DashboardEffects(s, key);
      DashboardLogsNothing(s, key);
    }
  }
}
