/**
 * What each key of the terminal app does, told from outside of the reducer.
 */
module KeyBehaviour {
  import opened Prelude
  import opened AppState
  import opened KeyReducer

  // ----- Lists and prompts -----

  /** Up and down step through a list in a circle, and undo each other. */
  lemma MovesCycle(l: ListState, visibleCount: nat)
    requires ListOk(l) && l.items != [] && visibleCount > 0
    ensures MoveUp(l).items == l.items == MoveDown(l, visibleCount).items
    ensures MoveDown(l, visibleCount).selectedIndex == (l.selectedIndex + 1) % |l.items|
    ensures (MoveUp(l).selectedIndex + 1) % |l.items| == l.selectedIndex
    ensures MoveDown(MoveUp(l), visibleCount).selectedIndex == l.selectedIndex
    ensures MoveUp(MoveDown(l, visibleCount)).selectedIndex == l.selectedIndex
  {}

  /**
   * The window moves no further than it must: it starts at a selection above it, ends at one below it, and goes
   * back to the top with a selection that wraps down.
   */
  lemma WindowMoves(l: ListState, visibleCount: nat)
    requires ListOk(l) && l.items != [] && visibleCount > 0 && Shown(l, visibleCount)
    ensures
      var r := MoveDown(l, visibleCount);
      r.scrollOffset == if r.selectedIndex == 0 then 0
                        else if Shown(r.(scrollOffset := l.scrollOffset), visibleCount) then l.scrollOffset
                        else r.selectedIndex - visibleCount + 1
    ensures
      var r := MoveUp(l);
      r.scrollOffset == if r.selectedIndex < l.scrollOffset then r.selectedIndex else l.scrollOffset
  {}

  /** A number selects that item; a number beyond the list changes nothing. */
  lemma NumberSelects(l: ListState, num: nat)
    ensures 0 < num <= |l.items| ==> SelectByNumber(l, num) == l.(selectedIndex := num - 1)
    ensures num > |l.items| ==> SelectByNumber(l, num) == l
  {}

  const BACKSPACE := "\U{7f}"
  const DELETE := "\U{1b}[3~"
  const LEFT := "\U{1b}[D"
  const RIGHT := "\U{1b}[C"
  const HOME := "\U{1}"
  const END := "\U{5}"
  const CLEAR := "\U{15}"
  const ERASE_WORD := "\U{17}"

  predicate Printable(c: char) {
    ' ' <= c <= '~'
  }

  /** A typed character stands at the cursor, which moves behind it; backspace takes it out again. */
  lemma TypeThenErase(c: char, before: string, after: string)
    requires Printable(c)
    ensures HandleInputKey([c], before + after, |before|) == Edit(before + [c] + after, |before| + 1)
    ensures HandleInputKey(BACKSPACE, before + [c] + after, |before| + 1) == Edit(before + after, |before|)
    ensures HandleInputKey(DELETE, before + [c] + after, |before|) == Edit(before + after, |before|)
  {
    assert (before + after)[..|before|] == before && (before + after)[|before|..] == after;
    var v := before + [c] + after;
    assert v[..|before|] == before && v[|before| + 1..] == after;
    assert [c] != KEY_ENTER && [c] != KEY_NEWLINE && [c] != KEY_ESCAPE && [c] != KEY_CTRL_C by {
      assert [c][0] == c;
    }
    TypedIsText(c);
  }

  lemma TypedIsText(c: char)
    requires Printable(c)
    ensures [c] != BACKSPACE && [c] != "\U{8}" && [c] != DELETE && [c] != LEFT && [c] != RIGHT
    ensures [c] != HOME && [c] != "\U{1b}[H" && [c] != END && [c] != "\U{1b}[F" && [c] != CLEAR && [c] != ERASE_WORD
  {
    assert [c][0] == c && |DELETE| == 4 && |LEFT| == 3 && |RIGHT| == 3 && |"\U{1b}[H"| == 3 && |"\U{1b}[F"| == 3;
  }

  /** The arrows move within the text and leave it alone; at its ends nothing happens. */
  lemma CursorMoves(value: string, cursor: nat)
    requires cursor <= |value|
    ensures HandleInputKey(LEFT, value, cursor) == Edit(value, if cursor == 0 then 0 else cursor - 1)
    ensures HandleInputKey(RIGHT, value, cursor) == Edit(value, if cursor == |value| then |value| else cursor + 1)
    ensures HandleInputKey(HOME, value, cursor) == Edit(value, 0)
    ensures HandleInputKey(END, value, cursor) == Edit(value, |value|)
    ensures HandleInputKey(CLEAR, value, cursor) == Edit("", 0)
    ensures cursor == 0 ==> HandleInputKey(BACKSPACE, value, cursor) == Edit(value, cursor)
    ensures cursor == |value| ==> HandleInputKey(DELETE, value, cursor) == Edit(value, cursor)
  {}

  /** From `start` to `end` a word, or nothing, and only spaces behind it up to and including `pos`. */
  predicate WordThenSpaces(value: string, start: nat, end: nat, pos: nat)
    requires pos <= |value|
  {
    && start <= end <= pos && (start > 0 ==> value[start - 1] == ' ')
    && (forall i :: start <= i < end ==> value[i] != ' ')
    && forall i :: end < i <= pos && i < |value| ==> value[i] == ' '
  }

  lemma {:induction false} WordStartIs(value: string, pos: nat, skipping: bool) returns (end: nat)
    requires pos <= |value|
    ensures WordThenSpaces(value, WordStart(value, pos, skipping), end, pos) && (!skipping ==> end == pos)
    decreases pos, skipping
  {
    end := pos;
    if skipping {
      end := WordStartIs(value, if pos > 0 && pos < |value| && value[pos] == ' ' then pos - 1 else pos,
        pos > 0 && pos < |value| && value[pos] == ' ');
    } else if pos > 0 && value[pos - 1] != ' ' {
      var e := WordStartIs(value, pos - 1, false);
    }
  }

  /** Erasing a word cuts it, and the spaces behind it, right before the cursor. */
  lemma WordErased(value: string, cursor: nat) returns (start: nat, end: nat)
    requires 0 < cursor <= |value|
    ensures WordThenSpaces(value, start, end, cursor - 1)
    ensures HandleInputKey(ERASE_WORD, value, cursor) == Edit(value[..start] + value[cursor..], start)
  {
    start := WordStart(value, cursor - 1, true);
    end := WordStartIs(value, cursor - 1, true);
  }

  // ----- Exactly when the reducer asks for an effect -----

  function Selected(s: App): Option<Project> {
    var l := ListOf(s);
    if l.selectedIndex < |l.items| then l.items[l.selectedIndex].data else None
  }

  /** The key reaches the selected project on the dashboard. */
  predicate OnDashboard(s: App) {
    s.view == Dashboard && !s.input.active
  }

  /** The row a number or Enter picks in a menu whose numbers go up to `last`. */
  predicate PicksMenuRow(key: string, last: char, current: nat, row: nat)
    requires last <= '9'
  {
    && !IsUp(key) && !IsDown(key)
    && if InRange(key, last) then row == NumberBefore(key) else IsEnter(key) && row == current
  }

  ghost predicate Asked(s: App, key: string, e: Effect) {
    match e
    case Exit => !s.input.active && (key == KEY_CTRL_C || (key == "q" && s.view == Dashboard))
    case CreateProject(template, name) =>
      && s.input.active && (key == KEY_ENTER || key == KEY_NEWLINE)
      && s.input.purpose == Some(CreateProjectFrom(template)) && name == Trim(s.input.value) && name != ""
    case Login(provider) =>
      && s.view == Auth && !s.input.active && key != KEY_CTRL_C && key != KEY_ESCAPE
      && exists row: nat :: row < 3 && PicksMenuRow(key, '3', s.authProviderIndex, row) && provider == AUTH_PROVIDERS[row]
    case OpenBrowser(p) =>
      && OnDashboard(s)
      && (((key == KEY_ENTER || key == KEY_NEWLINE || key == "o") && Selected(s) == Some(p))
          || exists num: nat :: NumberPicks(s, key, num) && ListOf(s).items[num - 1].data == Some(p))
    case OpenStudio(p) => OnDashboard(s) && key == "s" && Selected(s) == Some(p)
    case OpenIde(p) => OnDashboard(s) && key == "i" && Selected(s) == Some(p)
    case Pull(p) => OnDashboard(s) && key == "p" && Selected(s) == Some(p)
    case Push(p) => OnDashboard(s) && key == "u" && Selected(s) == Some(p) && p.kind == Local
    case Logout => OnDashboard(s) && key == "x" && s.user.Some?
    case OpenMcpSettings => OnDashboard(s) && key == "m" && s.mcp.enabled
  }

  /** The key is a number of an item of the active list. */
  ghost predicate NumberPicks(s: App, key: string, num: nat) {
    InRange(key, '9') && num == NumberBefore(key) + 1 && num <= |ListOf(s).items|
  }

  lemma DigitsApart(key: string)
    requires InRange(key, '9')
    ensures key != "q" && key != "l" && key != "L" && key != "a" && key != "x" && key != "n" && key != "?" && key != "m"
    ensures key != "o" && key != "s" && key != "i" && key != "p" && key != "u"
    ensures !IsUp(key) && !IsDown(key) && !IsEnter(key) && key != KEY_TAB && key != KEY_CTRL_C && key != KEY_ESCAPE
  {}

  lemma ProjectEffectIff(s: App, key: string, p: Project, e: Effect)
    ensures e in ReduceProjectKey(s, key, p).effects <==>
      || ((IsEnter(key) || key == "o") && e == OpenBrowser(p))
      || (key == "s" && e == OpenStudio(p)) || (key == "i" && e == OpenIde(p)) || (key == "p" && e == Pull(p))
      || (key == "u" && p.kind == Local && e == Push(p))
  {}

  lemma DashboardEffectIff(s: App, key: string, e: Effect)
    requires OnDashboard(s) && key != KEY_CTRL_C && key != KEY_ESCAPE && key != "q"
    ensures e in ReduceDashboardKey(s, key).effects <==> Asked(s, key, e)
  {
    if InRange(key, '9') {
      NumberEffectIff(s, key, e);
    } else if Selected(s).Some? {
      ProjectEffectIff(s, key, Selected(s).value, e);
    }
  }

  lemma NumberEffectIff(s: App, key: string, e: Effect)
    requires OnDashboard(s) && InRange(key, '9')
    ensures e in ReduceDashboardKey(s, key).effects <==> Asked(s, key, e)
  {
    DigitsApart(key);
    assert NumberPicks(s, key, NumberBefore(key) + 1) || NumberBefore(key) + 1 > |ListOf(s).items|;
  }

  /** A key asks for an effect exactly when the table says so. */
  lemma EffectIff(s: App, key: string, suggestion: string, e: Effect)
    requires InputOk(s)
    ensures e in ReduceKey(s, key, suggestion).effects <==> Asked(s, key, e)
  {
    if s.input.active {
      InputEffectIff(s, key, e);
    } else if key == KEY_CTRL_C || key == KEY_ESCAPE || (key == "q" && s.view == Dashboard) {
      GlobalEffectIff(s, key, suggestion, e);
    } else if s.view == Dashboard {
      DashboardEffectIff(s, key, e);
    } else if s.view == Auth {
      AuthEffectIff(s, key, e);
    }
  }

  lemma InputEffectIff(s: App, key: string, e: Effect)
    requires InputOk(s) && s.input.active
    ensures e in ReduceInputKey(s, key).effects <==> Asked(s, key, e)
  {}

  lemma GlobalEffectIff(s: App, key: string, suggestion: string, e: Effect)
    requires InputOk(s) && !s.input.active
    requires key == KEY_CTRL_C || key == KEY_ESCAPE || (key == "q" && s.view == Dashboard)
    ensures e in ReduceKey(s, key, suggestion).effects <==> Asked(s, key, e)
  {
    assert !IsEnter(key) && !InRange(key, '9') && !InRange(key, '3');
  }

  lemma AuthEffectIff(s: App, key: string, e: Effect)
    requires s.view == Auth && !s.input.active && key != KEY_CTRL_C && key != KEY_ESCAPE
    ensures e in ReduceAuthKey(s, key).effects <==> Asked(s, key, e)
  {
    if InRange(key, '3') {
      assert PicksMenuRow(key, '3', s.authProviderIndex, NumberBefore(key)) <==> !IsUp(key) && !IsDown(key);
    }
  }

  // ----- The state behind each key -----

  /** Without a prompt, Ctrl-C and `q` change nothing, and Escape goes back where the view was opened. */
  lemma GlobalKeys(s: App, suggestion: string)
    requires InputOk(s) && !s.input.active
    ensures ReduceKey(s, KEY_CTRL_C, suggestion).state == s
    ensures s.view == Dashboard ==> ReduceKey(s, "q", suggestion).state == s && ReduceKey(s, KEY_ESCAPE, suggestion).state == s
    ensures s.view != Dashboard ==>
      var r := ReduceKey(s, KEY_ESCAPE, suggestion).state;
      && r.view == (if s.previousView.Some? then s.previousView.value else Dashboard) && r.previousView == None
      && r == s.(view := r.view, previousView := None)
  {}

  /** Opening a view and going back returns to the view before. */
  lemma BackUndoesNavigate(s: App, view: View)
    ensures NavigateTo(s, view).view == view && GoBack(NavigateTo(s, view)).view == s.view
    ensures GoBack(NavigateTo(s, view)) == s.(previousView := None)
  {}

  /** The keys that leave the dashboard or flip one of its switches. */
  lemma DashboardSwitches(s: App)
    ensures
      var r := ReduceDashboardKey(s, "n").state;
      r == s.(view := NewProject, previousView := Some(s.view), newProjectIndex := 0)
    ensures ReduceDashboardKey(s, "a").state == if s.user.None? then s.(view := Auth, previousView := Some(s.view)) else s
    ensures ReduceDashboardKey(s, "?").state == s.(showHelp := !s.showHelp)
    ensures ReduceDashboardKey(s, "l").state == s.(logsExpanded := !s.logsExpanded, logScroll := 0)
    ensures ReduceDashboardKey(s, "L").state == ReduceDashboardKey(s, "l").state
  {}

  /** The keys that only ask the shell for something leave the state alone. */
  lemma ProjectKeysKeepState(s: App, key: string)
    requires IsEnter(key) || key == "o" || key == "s" || key == "i" || key == "p" || key == "u" || key == "x" || key == "m"
    ensures ReduceDashboardKey(s, key).state == s
  {
    ProjectKeysApart(key);
  }

  lemma ProjectKeysApart(key: string)
    requires IsEnter(key) || key == "o" || key == "s" || key == "i" || key == "p" || key == "u" || key == "x" || key == "m"
    ensures !IsUp(key) && !IsDown(key) && key != "l" && key != "L" && key != KEY_TAB && key != "a" && key != "n" && key != "?"
    ensures !InRange(key, '9')
  {}

  /** Up and down move the selection of the active list; with the logs open they scroll those by one line. */
  lemma DashboardArrows(s: App, key: string)
    requires ScrollOk(s) && ListOk(ListOf(s)) && (IsUp(key) || IsDown(key))
    ensures
      var r := ReduceDashboardKey(s, key).state;
      if s.logsExpanded && s.logs != [] then
        && r == s.(logScroll := r.logScroll)
        && (IsUp(key) ==> r.logScroll == if s.logScroll < |s.logs| - 5 then s.logScroll + 1 else s.logScroll)
        && (IsDown(key) ==> r.logScroll == if s.logScroll > 0 then s.logScroll - 1 else 0)
      else
        && r == SetListOf(s, ListOf(r)) && ListOf(r).items == ListOf(s).items
        && (ListOf(s).items == [] ==> r == s)
        && (ListOf(s).items != [] ==>
              if IsUp(key) then (ListOf(r).selectedIndex + 1) % |ListOf(s).items| == ListOf(s).selectedIndex
              else ListOf(r).selectedIndex == (ListOf(s).selectedIndex + 1) % |ListOf(s).items|)
  {
    if ListOf(s).items != [] { MovesCycle(ListOf(s), VISIBLE_COUNT); }
    assert IsUp(key) ==> !IsDown(key);
    assert key != "l" && key != "L";
  }

  /** A number selects that item of the active list and shows it; a number beyond the list changes nothing. */
  lemma DashboardNumbers(s: App, key: string)
    requires ListOk(ListOf(s)) && InRange(key, '9')
    ensures
      var num, r := NumberBefore(key) + 1, ReduceDashboardKey(s, key).state;
      if num > |ListOf(s).items| then r == s
      else
        && r == SetListOf(s, ListOf(r)) && ListOf(r).items == ListOf(s).items
        && ListOf(r).selectedIndex == num - 1 && Shown(ListOf(r), VISIBLE_COUNT)
  {
    DigitsApart(key);
    ListMovesOk(ListOf(s), VISIBLE_COUNT, NumberBefore(key) + 1);
  }

  /** The tab key goes to the other section and back, when both are shown. */
  lemma TabSwitches(s: App)
    requires SelectionOk(s)
    ensures
      var r := ReduceDashboardKey(s, KEY_TAB).state;
      && r == s.(activeList := r.activeList)
      && (r.activeList != s.activeList <==> s.projects.items != [] && s.user.Some? && s.remoteProjects.items != [])
      && (s.projects.items != [] ==> ReduceDashboardKey(r, KEY_TAB).state == s)
  {}

  /** Up and down go round each menu. */
  lemma MenusCycle(s: App, key: string, suggestion: string)
    requires IsUp(key) || IsDown(key)
    requires s.newProjectIndex < 2 && s.authProviderIndex < 3 && ListOk(s.templates)
    ensures
      var step := if IsUp(key) then -1 else 1;
      && ReduceNewProjectKey(s, key, suggestion).state == s.(newProjectIndex := (s.newProjectIndex + step) % 2)
      && ReduceAuthKey(s, key).state == s.(authProviderIndex := (s.authProviderIndex + step) % 3)
      && (s.templates.items != [] ==>
            var r := ReduceTemplatesKey(s, key, suggestion).state;
            && r == s.(templates := r.templates) && r.templates.items == s.templates.items
            && r.templates.selectedIndex == (s.templates.selectedIndex + step) % |s.templates.items|)
  {
    assert IsUp(key) ==> !IsDown(key);
    if s.templates.items != [] { CycleBack(s.templates); }
  }

  lemma CycleBack(l: ListState)
    requires ListOk(l) && l.items != []
    ensures MoveUp(l).selectedIndex == (l.selectedIndex - 1) % |l.items| && MoveUp(l).items == l.items
    ensures MoveDown(l, |l.items|).selectedIndex == (l.selectedIndex + 1) % |l.items| && MoveDown(l, |l.items|).items == l.items
  {}

  /** A prompt for a project name, with the suggestion as its text and the cursor behind it. */
  ghost predicate Prompts(r: App, template: string, suggestion: string) {
    && r.input.active && r.input.purpose == Some(CreateProjectFrom(template))
    && r.input.value == suggestion && r.input.cursor == |suggestion|
  }

  /** Picking a row of the new-project menu: the template list, or a prompt for the minimal template. */
  lemma NewProjectPicks(s: App, key: string, suggestion: string, row: nat)
    requires PicksMenuRow(key, '2', s.newProjectIndex, row)
    ensures
      var r := ReduceNewProjectKey(s, key, suggestion).state;
      && r.newProjectIndex == row
      && (row == 0 ==> r.view == Templates && r.previousView == Some(s.view) && r.input == s.input)
      && (row > 0 ==> r.view == s.view && Prompts(r, "minimal", suggestion))
  {}

  /** Picking a template prompts for a project of it. */
  lemma TemplatePicks(s: App, key: string, suggestion: string)
    requires IsEnter(key) && s.templates.selectedIndex < |s.templates.items|
    ensures
      var r := ReduceTemplatesKey(s, key, suggestion).state;
      r.view == s.view && r.templates == s.templates && Prompts(r, s.templates.items[s.templates.selectedIndex].id, suggestion)
  {
    assert !IsUp(key) && !IsDown(key);
  }

  /** Picking a provider logs that the browser opens, and returns to the dashboard. */
  lemma AuthPicks(s: App, key: string, row: nat)
    requires PicksMenuRow(key, '3', s.authProviderIndex, row) && row < 3
    ensures
      var log := Log(Info, ["Opening browser for google login...", "Opening browser for github login...",
        "Opening browser for microsoft login..."][row]);
      var logs := s.logs + [log];
      ReduceAuthKey(s, key).state
      == s.(view := Dashboard, previousView := Some(s.view), authProviderIndex := row,
            logs := if |logs| > s.maxLogs then logs[1..] else logs)
  {
    LoginMessages();
  }

  lemma LoginMessages()
    ensures LoginLog(Google) == Log(Info, "Opening browser for google login...")
    ensures LoginLog(Github) == Log(Info, "Opening browser for github login...")
    ensures LoginLog(Microsoft) == Log(Info, "Opening browser for microsoft login...")
  {}

  /** In a prompt a key edits the text, closes it, or closes it and returns to the dashboard. */
  lemma PromptKeys(s: App, key: string, suggestion: string)
    requires s.input.active && s.input.cursor <= |s.input.value|
    ensures
      var r := ReduceKey(s, key, suggestion).state;
      if key == KEY_ENTER || key == KEY_NEWLINE then
        r == s.(input := NO_INPUT, view := Dashboard, previousView := Some(s.view))
      else if key == KEY_ESCAPE || key == KEY_CTRL_C then r == s.(input := NO_INPUT)
      else
        && HandleInputKey(key, s.input.value, s.input.cursor).Edit?
        && r == s.(input := s.input.(value := r.input.value, cursor := r.input.cursor))
        && HandleInputKey(key, s.input.value, s.input.cursor) == Edit(r.input.value, r.input.cursor)
  {}

  /** From the template list, two Enters ask for a project of the selected template under the suggested name. */
  lemma TemplateToProject(s: App, suggestion: string)
    requires InputOk(s) && s.view == Templates && !s.input.active && s.templates.selectedIndex < |s.templates.items|
    ensures
      var prompt := ReduceKey(s, KEY_ENTER, suggestion).state;
      var template := s.templates.items[s.templates.selectedIndex].id;
      && prompt.input.cursor <= |prompt.input.value|
      && (Trim(suggestion) != "" ==>
            ReduceKey(prompt, KEY_ENTER, suggestion).effects == [CreateProject(template, Trim(suggestion))])
  {
    TemplatePicks(s, KEY_ENTER, suggestion);
  }

  // ----- What the updaters store -----

  /** Loading lists resets their selection; the active list leaves the remote section when that is not shown any more. */
  lemma UpdatersStore(s: App, items: seq<Item>, user: Option<string>)
    ensures SetProjects(s, items) == s.(projects := ListState(items, 0, 0))
    ensures SetTemplates(s, items) == s.(templates := ListState(items, 0, 0))
    ensures
      var r := SetRemoteProjects(s, items);
      && r == s.(remoteProjects := ListState(items, 0, 0), activeList := r.activeList)
      && r.activeList == if s.user.Some? && items != [] then s.activeList else Projects
    ensures
      var r := SetRemoteUser(s, user);
      && r == s.(user := user, activeList := r.activeList)
      && r.activeList == if user.Some? && s.remoteProjects.items != [] then s.activeList else Projects
  {}
}
