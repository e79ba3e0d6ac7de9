/** The settings screen: two tabs, a list of linked source-control
    repositories and a list of outgoing webhooks, each with an add form,
    a per-entry toggle and a per-entry delete. Every handler is a pure
    transition from one screen state to the next. Entry ids come from the
    wall clock in the program; here they are a parameter of the add events. */
module Settings {
  import opened Text
  import opened Lists

  datatype Repository = Repository(id: string, name: string, url: string, connected: bool)

  datatype Webhook = Webhook(id: string, name: string, url: string, enabled: bool, events: seq<string>)

  datatype Tab = Repos | Webhooks

  datatype SettingsState = SettingsState(
    activeTab: Tab,
    newRepoUrl: string,
    newWebhookUrl: string,
    newWebhookName: string,
    repositories: seq<Repository>,
    webhooks: seq<Webhook>)

  /** The screen as it first appears: repositories tab, empty inputs, two
      sample repositories (one connected) and two sample webhooks (one enabled). */
  const Initial: SettingsState := SettingsState(
    Repos, "", "", "",
    [ Repository("1", "lovable-project", "https://github.com/user/lovable-project", true),
      Repository("2", "antigravity-sync", "https://github.com/user/antigravity-sync", false) ],
    [ Webhook("1", "Deploy Hook", "https://api.example.com/deploy", true, ["push", "merge"]),
      Webhook("2", "Notification", "https://api.example.com/notify", false, ["push"]) ])

  /** The name given to a repository whose URL has nothing after its last `/`. */
  const DefaultRepoName: string := "new-repo"

  /** The event list of a newly added webhook. */
  const NewWebhookEvents: seq<string> := ["push"]

  // ---------------------------------------------------------------------
  // Selectors and per-entry updates

  function RepoHasId(id: string): Repository -> bool {
    (r: Repository) => r.id == id
  }

  function RepoLacksId(id: string): Repository -> bool {
    (r: Repository) => r.id != id
  }

  function IsConnected(r: Repository): bool {
    r.connected
  }

  function FlipConnection(r: Repository): Repository {
    r.(connected := !r.connected)
  }

  function WebhookHasId(id: string): Webhook -> bool {
    (w: Webhook) => w.id == id
  }

  function WebhookLacksId(id: string): Webhook -> bool {
    (w: Webhook) => w.id != id
  }

  function IsEnabled(w: Webhook): bool {
    w.enabled
  }

  function FlipEnabled(w: Webhook): Webhook {
    w.(enabled := !w.enabled)
  }

  function RepoId(r: Repository): string {
    r.id
  }

  function WebhookId(w: Webhook): string {
    w.id
  }

  predicate UniqueRepoIds(repos: seq<Repository>) {
    DistinctBy(repos, RepoId)
  }

  predicate UniqueWebhookIds(hooks: seq<Webhook>) {
    DistinctBy(hooks, WebhookId)
  }

  predicate UniqueIds(st: SettingsState) {
    UniqueRepoIds(st.repositories) && UniqueWebhookIds(st.webhooks)
  }

  // ---------------------------------------------------------------------
  // Repositories

  /** The repository name derived from its URL: the text after the last `/`,
      or the default name when that text is empty (an empty URL or one that
      ends in `/`). Never empty and never contains `/`. */
  function RepoName(url: string): (name: string)
    ensures name != [] && '/' !in name
    ensures url == [] || url[|url| - 1] == '/' ==> name == DefaultRepoName
    ensures url != [] && url[|url| - 1] != '/' ==> IsLastSegment(name, url, '/')
  {
    var segment := LastSegment(url, '/');
    if segment == [] then DefaultRepoName else segment
  }

  /** The add-repository button: ignored while the URL input is blank;
      otherwise one disconnected entry carrying the untrimmed URL is appended
      after the existing ones and the input is cleared. */
  function AddRepository(st: SettingsState, newId: string): (r: SettingsState)
    ensures IsBlank(st.newRepoUrl) ==> r == st
    ensures !IsBlank(st.newRepoUrl) ==>
      && |r.repositories| == |st.repositories| + 1
      && r.repositories[..|st.repositories|] == st.repositories
      && r.repositories[|st.repositories|] == Repository(newId, RepoName(st.newRepoUrl), st.newRepoUrl, false)
      && r.newRepoUrl == []
      && r == st.(repositories := r.repositories, newRepoUrl := r.newRepoUrl)
  {
    if IsBlank(st.newRepoUrl) then st
    else
      var entry := Repository(newId, RepoName(st.newRepoUrl), st.newRepoUrl, false);
      st.(repositories := st.repositories + [entry], newRepoUrl := "")
  }

  /** The connect/disconnect button of the entries carrying `id`: their
      `connected` flag flips, every other entry and every other field stays. */
  function ToggleRepositoryConnection(st: SettingsState, id: string): (r: SettingsState)
    ensures r == st.(repositories := r.repositories)
    ensures |r.repositories| == |st.repositories|
    ensures forall i :: 0 <= i < |st.repositories| && st.repositories[i].id != id ==>
              r.repositories[i] == st.repositories[i]
    ensures forall i :: 0 <= i < |st.repositories| && st.repositories[i].id == id ==>
              r.repositories[i] == st.repositories[i].(connected := !st.repositories[i].connected)
  {
    st.(repositories := MapWhere(st.repositories, RepoHasId(id), FlipConnection))
  }

  /** The delete button of the entries carrying `id`: they all disappear and
      the others stay, in order; an absent id changes nothing. */
  function RemoveRepository(st: SettingsState, id: string): (r: SettingsState)
    ensures r == st.(repositories := r.repositories)
    ensures IsSubsequence(r.repositories, st.repositories)
    ensures |r.repositories| == |st.repositories| - Count(st.repositories, RepoHasId(id))
    ensures forall i :: 0 <= i < |r.repositories| ==> r.repositories[i].id != id
    ensures forall i :: 0 <= i < |st.repositories| && st.repositories[i].id != id ==>
              st.repositories[i] in r.repositories
  {
    CountComplement(st.repositories, id);
    st.(repositories := Filter(st.repositories, RepoLacksId(id)))
  }

  lemma {:induction false} CountComplement(repos: seq<Repository>, id: string)
    ensures Count(repos, RepoHasId(id)) + Count(repos, RepoLacksId(id)) == |repos|
  {
    if repos != [] {
      CountComplement(repos[1..], id);
    }
  }

  /** The header count of the repositories tab: the number of connected
      entries (so zero exactly when none is connected). */
  function ConnectedCount(repos: seq<Repository>): (n: nat)
    ensures n == Count(repos, IsConnected)
  {
    |Filter(repos, IsConnected)|
  }

  // ---------------------------------------------------------------------
  // Webhooks

  /** Both webhook inputs hold something other than whitespace. */
  predicate WebhookFormFilled(st: SettingsState) {
    !IsBlank(st.newWebhookUrl) && !IsBlank(st.newWebhookName)
  }

  /** The add-webhook button: ignored while either the URL or the name input
      is blank; otherwise one enabled entry listening to `push`, with the
      untrimmed name and URL, is appended and both inputs are cleared. */
  function AddWebhook(st: SettingsState, newId: string): (r: SettingsState)
    ensures !WebhookFormFilled(st) ==> r == st
    ensures WebhookFormFilled(st) ==>
      && |r.webhooks| == |st.webhooks| + 1
      && r.webhooks[..|st.webhooks|] == st.webhooks
      && r.webhooks[|st.webhooks|] == Webhook(newId, st.newWebhookName, st.newWebhookUrl, true, NewWebhookEvents)
      && r.newWebhookUrl == [] && r.newWebhookName == []
      && r == st.(webhooks := r.webhooks, newWebhookUrl := r.newWebhookUrl, newWebhookName := r.newWebhookName)
  {
    if !WebhookFormFilled(st) then st
    else
      var entry := Webhook(newId, st.newWebhookName, st.newWebhookUrl, true, NewWebhookEvents);
      st.(webhooks := st.webhooks + [entry], newWebhookUrl := "", newWebhookName := "")
  }

  /** The switch of the entries carrying `id`: their `enabled` flag flips,
      every other entry and every other field stays. */
  function ToggleWebhook(st: SettingsState, id: string): (r: SettingsState)
    ensures r == st.(webhooks := r.webhooks)
    ensures |r.webhooks| == |st.webhooks|
    ensures forall i :: 0 <= i < |st.webhooks| && st.webhooks[i].id != id ==>
              r.webhooks[i] == st.webhooks[i]
    ensures forall i :: 0 <= i < |st.webhooks| && st.webhooks[i].id == id ==>
              r.webhooks[i] == st.webhooks[i].(enabled := !st.webhooks[i].enabled)
  {
    st.(webhooks := MapWhere(st.webhooks, WebhookHasId(id), FlipEnabled))
  }

  /** The delete button of the webhooks carrying `id`. */
  function RemoveWebhook(st: SettingsState, id: string): (r: SettingsState)
    ensures r == st.(webhooks := r.webhooks)
    ensures IsSubsequence(r.webhooks, st.webhooks)
    ensures |r.webhooks| == |st.webhooks| - Count(st.webhooks, WebhookHasId(id))
    ensures forall i :: 0 <= i < |r.webhooks| ==> r.webhooks[i].id != id
    ensures forall i :: 0 <= i < |st.webhooks| && st.webhooks[i].id != id ==>
              st.webhooks[i] in r.webhooks
  {
    WebhookCountComplement(st.webhooks, id);
    st.(webhooks := Filter(st.webhooks, WebhookLacksId(id)))
  }

  lemma {:induction false} WebhookCountComplement(hooks: seq<Webhook>, id: string)
    ensures Count(hooks, WebhookHasId(id)) + Count(hooks, WebhookLacksId(id)) == |hooks|
  {
    if hooks != [] {
      WebhookCountComplement(hooks[1..], id);
    }
  }

  /** The header count of the webhooks tab: the number of enabled entries
      (so zero exactly when none is enabled). */
  function ActiveCount(hooks: seq<Webhook>): (n: nat)
    ensures n == Count(hooks, IsEnabled)
  {
    |Filter(hooks, IsEnabled)|
  }

  // ---------------------------------------------------------------------
  // The screen as an event-driven state machine

  datatype Event =
    | SelectTab(tab: Tab)
    | EditRepoUrl(text: string)
    | AddRepo(newId: string)
    | ToggleRepo(id: string)
    | RemoveRepo(id: string)
    | EditWebhookName(text: string)
    | EditWebhookUrl(text: string)
    | AddHook(newId: string)
    | ToggleHook(id: string)
    | RemoveHook(id: string)

  /** One user interaction. Switching tabs or typing touches only the tab or
      the typed input; the list events are the handlers above. */
  function Step(st: SettingsState, e: Event): (r: SettingsState)
    ensures e.SelectTab? ==> r == st.(activeTab := e.tab)
    ensures e.EditRepoUrl? ==> r == st.(newRepoUrl := e.text)
    ensures e.EditWebhookName? ==> r == st.(newWebhookName := e.text)
    ensures e.EditWebhookUrl? ==> r == st.(newWebhookUrl := e.text)
    ensures !e.SelectTab? ==> r.activeTab == st.activeTab
    ensures e.AddHook? || e.ToggleHook? || e.RemoveHook? || e.EditWebhookName? || e.EditWebhookUrl? ==>
              r.repositories == st.repositories && r.newRepoUrl == st.newRepoUrl
    ensures e.AddRepo? || e.ToggleRepo? || e.RemoveRepo? || e.EditRepoUrl? ==>
              r.webhooks == st.webhooks && r.newWebhookName == st.newWebhookName && r.newWebhookUrl == st.newWebhookUrl
  {
    match e
    case SelectTab(tab) => st.(activeTab := tab)
    case EditRepoUrl(text) => st.(newRepoUrl := text)
    case AddRepo(newId) => AddRepository(st, newId)
    case ToggleRepo(id) => ToggleRepositoryConnection(st, id)
    case RemoveRepo(id) => RemoveRepository(st, id)
    case EditWebhookName(text) => st.(newWebhookName := text)
    case EditWebhookUrl(text) => st.(newWebhookUrl := text)
    case AddHook(newId) => AddWebhook(st, newId)
    case ToggleHook(id) => ToggleWebhook(st, id)
    case RemoveHook(id) => RemoveWebhook(st, id)
  }

  /** An add event whose id no entry of the target list already carries. */
  predicate FreshFor(st: SettingsState, e: Event) {
    && (e.AddRepo? ==> forall i :: 0 <= i < |st.repositories| ==> st.repositories[i].id != e.newId)
    && (e.AddHook? ==> forall i :: 0 <= i < |st.webhooks| ==> st.webhooks[i].id != e.newId)
  }

  // ---------------------------------------------------------------------
  // Properties relating several transitions

  /** Toggling the same id twice restores the screen. */
  lemma ToggleRepositoryTwice(st: SettingsState, id: string)
    ensures ToggleRepositoryConnection(ToggleRepositoryConnection(st, id), id) == st
  {
    MapWhereInvolution(st.repositories, RepoHasId(id), FlipConnection);
  }

  lemma ToggleWebhookTwice(st: SettingsState, id: string)
    ensures ToggleWebhook(ToggleWebhook(st, id), id) == st
  {
    MapWhereInvolution(st.webhooks, WebhookHasId(id), FlipEnabled);
  }

  /** With unique ids, toggling a present id moves the connected count by
      exactly one: down if that entry was connected, up otherwise. */
  lemma {:induction false} ToggleRepositoryMovesCountByOne(st: SettingsState, id: string, k: nat)
    requires UniqueRepoIds(st.repositories)
    requires k < |st.repositories| && st.repositories[k].id == id
    ensures ConnectedCount(ToggleRepositoryConnection(st, id).repositories)
            == if st.repositories[k].connected then ConnectedCount(st.repositories) - 1
               else ConnectedCount(st.repositories) + 1
  {
    var repos := st.repositories;
    forall i | 0 <= i < |repos| && i != k
      ensures !RepoHasId(id)(repos[i])
    {
      if i < k { assert RepoId(repos[i]) != RepoId(repos[k]); }
      else { assert RepoId(repos[k]) != RepoId(repos[i]); }
    }
    CountMapWhereSingle(repos, RepoHasId(id), FlipConnection, IsConnected, k);
  }

  /** With unique ids, toggling a present webhook moves the active count by one. */
  lemma {:induction false} ToggleWebhookMovesCountByOne(st: SettingsState, id: string, k: nat)
    requires UniqueWebhookIds(st.webhooks)
    requires k < |st.webhooks| && st.webhooks[k].id == id
    ensures ActiveCount(ToggleWebhook(st, id).webhooks)
            == if st.webhooks[k].enabled then ActiveCount(st.webhooks) - 1
               else ActiveCount(st.webhooks) + 1
  {
    var hooks := st.webhooks;
    forall i | 0 <= i < |hooks| && i != k
      ensures !WebhookHasId(id)(hooks[i])
    {
      if i < k { assert WebhookId(hooks[i]) != WebhookId(hooks[k]); }
      else { assert WebhookId(hooks[k]) != WebhookId(hooks[i]); }
    }
    CountMapWhereSingle(hooks, WebhookHasId(id), FlipEnabled, IsEnabled, k);
  }

  /** A new repository starts disconnected, so adding one never changes the
      connected count. */
  lemma {:induction false} AddRepositoryKeepsConnectedCount(st: SettingsState, newId: string)
    ensures ConnectedCount(AddRepository(st, newId).repositories) == ConnectedCount(st.repositories)
  {
    var r := AddRepository(st, newId);
    if !IsBlank(st.newRepoUrl) {
      var entry := r.repositories[|st.repositories|];
      assert r.repositories == st.repositories + [entry];
      CountAppend(st.repositories, [entry], IsConnected);
    }
  }

  /** A new webhook starts enabled, so a successful add raises the active
      count by exactly one. */
  lemma {:induction false} AddWebhookRaisesActiveCount(st: SettingsState, newId: string)
    ensures ActiveCount(AddWebhook(st, newId).webhooks)
            == if !WebhookFormFilled(st) then ActiveCount(st.webhooks)
               else ActiveCount(st.webhooks) + 1
  {
    var r := AddWebhook(st, newId);
    if WebhookFormFilled(st) {
      var entry := r.webhooks[|st.webhooks|];
      assert r.webhooks == st.webhooks + [entry];
      CountAppend(st.webhooks, [entry], IsEnabled);
    }
  }

  /** The initial screen has unique ids, one connected repository and one
      enabled webhook. */
  lemma InitialFacts()
    ensures UniqueIds(Initial)
    ensures ConnectedCount(Initial.repositories) == 1
    ensures ActiveCount(Initial.webhooks) == 1
  {
  }

  /** Unique ids are an invariant of the screen as long as every add event
      brings an id not already in its list. */
  lemma StepPreservesUniqueIds(st: SettingsState, e: Event)
    requires UniqueIds(st) && FreshFor(st, e)
    ensures UniqueIds(Step(st, e))
  {
    var r := Step(st, e);
    match e
    case AddRepo(newId) =>
      assert r == AddRepository(st, newId);
      if !IsBlank(st.newRepoUrl) {
        var entry := r.repositories[|st.repositories|];
        assert r.repositories == st.repositories + [entry];
        DistinctByAppendFresh(st.repositories, entry, RepoId);
      }
    case ToggleRepo(id) =>
      assert r == ToggleRepositoryConnection(st, id);
      DistinctByMapWhere(st.repositories, RepoHasId(id), FlipConnection, RepoId);
    case RemoveRepo(id) =>
      assert r == RemoveRepository(st, id);
      DistinctByFilter(st.repositories, RepoLacksId(id), RepoId);
    case AddHook(newId) =>
      assert r == AddWebhook(st, newId);
      if WebhookFormFilled(st) {
        var entry := r.webhooks[|st.webhooks|];
        assert r.webhooks == st.webhooks + [entry];
        DistinctByAppendFresh(st.webhooks, entry, WebhookId);
      }
    case ToggleHook(id) =>
      assert r == ToggleWebhook(st, id);
      DistinctByMapWhere(st.webhooks, WebhookHasId(id), FlipEnabled, WebhookId);
    case RemoveHook(id) =>
      assert r == RemoveWebhook(st, id);
      DistinctByFilter(st.webhooks, WebhookLacksId(id), WebhookId);
    case SelectTab(_) =>
    case EditRepoUrl(_) =>
    case EditWebhookName(_) =>
    case EditWebhookUrl(_) =>
  }

  /** Deleting an id that no repository carries changes nothing. */
  lemma RemoveAbsentRepository(st: SettingsState, id: string)
    requires forall i :: 0 <= i < |st.repositories| ==> st.repositories[i].id != id
    ensures RemoveRepository(st, id) == st
  {
    FilterKeepAll(st.repositories, RepoLacksId(id));
  }

  /** Deleting an id that no webhook carries changes nothing. */
  lemma RemoveAbsentWebhook(st: SettingsState, id: string)
    requires forall i :: 0 <= i < |st.webhooks| ==> st.webhooks[i].id != id
    ensures RemoveWebhook(st, id) == st
  {
    FilterKeepAll(st.webhooks, WebhookLacksId(id));
  }
}
