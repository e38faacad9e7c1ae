/**
 * The state of the terminal app, its list and input components, and the updaters of that state.
 */
module AppState {
  import opened Prelude

  // ----- List selection -----

  datatype ProjectType = Local | Template | Remote

  datatype Project = Project(slug: string, path: string, kind: ProjectType)

  datatype Item = Item(id: string, data: Option<Project>)

  datatype ListState = ListState(items: seq<Item>, selectedIndex: nat, scrollOffset: nat)

  function CreateList(items: seq<Item>): ListState {
    ListState(items, 0, 0)
  }

  function MoveUp(l: ListState): ListState {
    if l.items == [] then l
    else
      var index := if l.selectedIndex > 0 then l.selectedIndex - 1 else |l.items| - 1;
      ListState(l.items, index, if index < l.scrollOffset then index else l.scrollOffset)
  }

  function MoveDown(l: ListState, visibleCount: nat): ListState
    requires visibleCount > 0 || l.items == []
  {
    if l.items == [] then l
    else
      var index := if l.selectedIndex + 1 < |l.items| then l.selectedIndex + 1 else 0;
      ListState(l.items, index,
        if index == 0 then 0
        else if index >= l.scrollOffset + visibleCount then index - visibleCount + 1
        else l.scrollOffset)
  }

  function SelectByNumber(l: ListState, num: nat): ListState {
    if num == 0 || num > |l.items| then l else l.(selectedIndex := num - 1)
  }

  /** Keeps the selected row inside the visible window. */
  function ScrollIntoView(l: ListState, visibleCount: nat): ListState
    requires visibleCount > 0
  {
    if l.selectedIndex < l.scrollOffset then l.(scrollOffset := l.selectedIndex)
    else if l.selectedIndex >= l.scrollOffset + visibleCount then l.(scrollOffset := l.selectedIndex - visibleCount + 1)
    else l
  }

  /** The selection is an item, or 0 in an empty list, and no earlier row than the first shown. */
  predicate ListOk(l: ListState) {
    && l.scrollOffset <= l.selectedIndex
    && (if l.items == [] then l.selectedIndex == 0 else l.selectedIndex < |l.items|)
  }

  /** The selected row is among the rows shown. */
  predicate Shown(l: ListState, visibleCount: nat) {
    l.scrollOffset <= l.selectedIndex < l.scrollOffset + visibleCount
  }

  lemma ListMovesOk(l: ListState, visibleCount: nat, num: nat)
    requires ListOk(l) && visibleCount > 0
    ensures ListOk(MoveUp(l)) && ListOk(MoveDown(l, visibleCount))
    ensures ListOk(ScrollIntoView(SelectByNumber(l, num), visibleCount))
    ensures Shown(l, visibleCount) ==> Shown(MoveDown(l, visibleCount), visibleCount)
    ensures Shown(ScrollIntoView(SelectByNumber(l, num), visibleCount), visibleCount)
  {}

  /** Moving up loses sight of the selection exactly when it wraps to a last row below the window. */
  lemma MoveUpShownIff(l: ListState, visibleCount: nat)
    requires ListOk(l) && Shown(l, visibleCount)
    ensures Shown(MoveUp(l), visibleCount) <==> l.selectedIndex > 0 || |l.items| <= visibleCount
  {}

  // ----- Inline input -----

  const KEY_ENTER := "\r"
  const KEY_NEWLINE := "\n"
  const KEY_ESCAPE := "\U{1b}"
  const KEY_CTRL_C := "\U{3}"

  datatype InputResult = Edit(value: string, cursor: nat) | Submit | Cancel

  /** From `pos` left over spaces, then over the word before them. */
  function WordStart(value: string, pos: nat, skipping: bool): (r: nat)
    requires pos <= |value|
    ensures r <= pos
    decreases pos, skipping
  {
    if skipping then
      if pos > 0 && pos < |value| && value[pos] == ' ' then WordStart(value, pos - 1, true) else WordStart(value, pos, false)
    else if pos > 0 && value[pos - 1] != ' ' then WordStart(value, pos - 1, false)
    else pos
  }

  function HandleInputKey(key: string, value: string, cursor: nat): (r: InputResult)
    requires cursor <= |value|
    ensures r.Edit? ==> r.cursor <= |r.value|
  {
    if key == KEY_ENTER || key == KEY_NEWLINE then Submit
    else if key == KEY_ESCAPE || key == KEY_CTRL_C then Cancel
    else if key == "\U{7f}" || key == "\U{8}" then
      if cursor == 0 then Edit(value, cursor) else Edit(value[..cursor - 1] + value[cursor..], cursor - 1)
    else if key == "\U{1b}[3~" then
      if cursor >= |value| then Edit(value, cursor) else Edit(value[..cursor] + value[cursor + 1..], cursor)
    else if key == "\U{1b}[D" then Edit(value, if cursor > 0 then cursor - 1 else 0)
    else if key == "\U{1b}[C" then Edit(value, if cursor < |value| then cursor + 1 else |value|)
    else if key == "\U{1}" || key == "\U{1b}[H" then Edit(value, 0)
    else if key == "\U{5}" || key == "\U{1b}[F" then Edit(value, |value|)
    else if key == "\U{15}" then Edit("", 0)
    else if key == "\U{17}" then
      if cursor == 0 then Edit(value, cursor)
      else
        var start := WordStart(value, cursor - 1, true);
        Edit(value[..start] + value[cursor..], start)
    else if |key| == 1 && ' ' <= key[0] <= '~' then Edit(value[..cursor] + key + value[cursor..], cursor + 1)
    else Edit(value, cursor)
  }

  // ----- The state -----

  datatype View = Dashboard | NewProject | Templates | Auth | Help

  /** The template a new project is asked for. */
  datatype Purpose = CreateProjectFrom(template: string)

  datatype Input = Input(active: bool, prompt: string, value: string, cursor: nat, purpose: Option<Purpose>)

  datatype Level = Info | Warn | Error | Debug

  datatype Log = Log(level: Level, message: string)

  datatype Server = Server(running: bool, url: string, port: int, errors: int, warnings: int)

  datatype Mcp = Mcp(enabled: bool, connected: bool)

  datatype ActiveList = Projects | RemoteProjects

  datatype App = App(
    view: View,
    previousView: Option<View>,
    server: Server,
    mcp: Mcp,
    user: Option<string>,
    projects: ListState,
    remoteProjects: ListState,
    templates: ListState,
    activeList: ActiveList,
    input: Input,
    logs: seq<Log>,
    maxLogs: nat,
    logsExpanded: bool,
    logScroll: nat,
    authProviderIndex: nat,
    newProjectIndex: nat,
    showHelp: bool)

  const NO_INPUT := Input(false, "", "", 0, None)

  const INITIAL := App(
    Dashboard, None, Server(false, "http://localhost:8080", 8080, 0, 0), Mcp(false, false), None,
    CreateList([]), CreateList([]), CreateList([]), Projects, NO_INPUT, [], 100, false, 0, 0, 0, false)

  function ListOf(s: App): ListState {
    if s.activeList == Projects then s.projects else s.remoteProjects
  }

  function SetProjects(s: App, items: seq<Item>): App {
    s.(projects := CreateList(items))
  }

  function SetTemplates(s: App, items: seq<Item>): App {
    s.(templates := CreateList(items))
  }

  predicate RemoteSelectable(s: App) {
    s.user.Some? && s.remoteProjects.items != []
  }

  function WithSelectableActiveList(s: App): App {
    if s.activeList == RemoteProjects && !RemoteSelectable(s) then s.(activeList := Projects) else s
  }

  function SetRemoteProjects(s: App, items: seq<Item>): App {
    WithSelectableActiveList(s.(remoteProjects := CreateList(items)))
  }

  function SetRemoteUser(s: App, user: Option<string>): App {
    WithSelectableActiveList(s.(user := user))
  }

  function NavigateTo(s: App, view: View): App {
    s.(view := view, previousView := Some(s.view))
  }

  function GoBack(s: App): App {
    s.(view := if s.previousView.Some? then s.previousView.value else Dashboard, previousView := None)
  }

  function SetListOf(s: App, l: ListState): App {
    if s.activeList == Projects then s.(projects := l) else s.(remoteProjects := l)
  }

  function StartInput(s: App, prompt: string, purpose: Purpose, value: string): App {
    s.(input := Input(true, prompt, value, |value|, Some(purpose)))
  }

  function EndInput(s: App): App {
    s.(input := NO_INPUT)
  }

  /** Appends, then drops the oldest entry when there are too many. */
  function AddLog(s: App, log: Log): App {
    var logs := s.logs + [log];
    s.(logs := if |logs| > s.maxLogs then logs[1..] else logs)
  }

  function ToggleLogsExpanded(s: App): App {
    s.(logsExpanded := !s.logsExpanded, logScroll := 0)
  }

  function Max(a: int, b: int): int {
    if a > b then a else b
  }

  function Min(a: int, b: int): int {
    if a < b then a else b
  }

  function ScrollLogs(s: App, up: bool): App {
    if !s.logsExpanded then s
    else s.(logScroll := Min(Max(0, |s.logs| - 5), Max(0, s.logScroll + if up then 1 else -1)))
  }

  // ----- What holds in every reachable state -----

  /** The active list is remote only while the dashboard shows the remote section. */
  predicate SelectionOk(s: App) {
    s.activeList == RemoteProjects ==> RemoteSelectable(s)
  }

  /** A prompt is open exactly when it has a purpose, the cursor is inside the text, and a closed prompt is empty. */
  predicate InputOk(s: App) {
    && (s.input.active <==> s.input.purpose.Some?)
    && s.input.cursor <= |s.input.value|
    && (!s.input.active ==> s.input == NO_INPUT)
    && (s.input.active ==> s.view == Templates || s.view == NewProject)
  }

  /** The logs are the most recent messages, as many as fit. */
  predicate LogsOk(s: App, messages: seq<Log>) {
    && |s.logs| == Min(|messages|, s.maxLogs)
    && s.logs == messages[|messages| - |s.logs|..]
  }

  /** The scroll position stays on the logs. */
  predicate ScrollOk(s: App) {
    s.logScroll <= Max(0, |s.logs| - 5)
  }

  /** Every list selection and the sign-in menu's are in range. */
  predicate IndicesOk(s: App) {
    && ListOk(s.projects) && ListOk(s.remoteProjects) && ListOk(s.templates)
    && s.authProviderIndex < 3
  }

  /** The help view is never entered: help is a flag of the dashboard. */
  predicate ViewOk(s: App) {
    s.view != Help && s.previousView != Some(Help)
  }

  predicate Core(s: App) {
    SelectionOk(s) && InputOk(s) && ScrollOk(s) && IndicesOk(s) && ViewOk(s)
  }

  predicate Invariant(s: App, messages: seq<Log>) {
    Core(s) && LogsOk(s, messages)
  }

  predicate SameLogs(s: App, r: App) {
    r.logs == s.logs && r.maxLogs == s.maxLogs
  }

  lemma AddLogKeeps(s: App, messages: seq<Log>, log: Log)
    requires LogsOk(s, messages)
    ensures LogsOk(AddLog(s, log), messages + [log])
  {
    var all := messages + [log];
    var dropped := |messages| - |s.logs|;
    assert s.logs + [log] == all[dropped..];
    assert (s.logs + [log])[1..] == all[dropped + 1..];
  }
}
