# Nexus popup: a Dafny model of its state transitions

Nexus is a browser-extension popup mockup. Its user interface links a web-app
builder, a source-control host and a third sync service. All of its behaviour
lives in the local state of a handful of React components. This project models
each component's state as an immutable Dafny datatype and each event handler as
a pure transition function, and proves the properties those handlers promise:

- **Settings screen** (`Settings`): two tabs, a list of repositories and a list
  of webhooks. Each list has an add form, a per-entry toggle, a per-entry
  delete and a header count. Ids come from the wall clock in the program and
  are a parameter of the add events here.
- **License-key card** (`License`): the key input, the show/hide eye button and
  the three-valued verdict `Idle | Valid | Invalid`. Activation depends only
  on the key's JavaScript length, measured in UTF-16 code units.
- **Plan selector** (`Plans`, `PlanSelector`): the table of four tiers, lookup
  with fallback to the free tier, the capped usage percentage over exact
  reals, picking a plan in the sheet, the selected mark and the subscribe
  button.
- **Pricing grid** (`PricingPlans`): the grid's own copy of the table, its
  selection (initially `free`), the current-plan badge and the subscribe
  button.
- **Chat panel** (`Chat`): send, Enter-to-send, clear, the disabled send
  button, and the canned reply as an independent event.
- The JavaScript primitives these handlers rely on are modelled once and
  shared. `Text` covers `String.prototype.trim`, using the ECMAScript
  WhiteSpace and LineTerminator code points, and `split("/").pop()`. `Lists`
  covers `filter`, `map` with a selective update, `find` and
  `filter(...).length`.

No component modelled here reads or writes browser storage, keeps a shared
settings record or switches between a main view and a settings view, so none
of these is part of the model. The usage bar is clamped only from above
(`Math.min(..., 100)`), so `PlanSelector.Percentage` is non-negative only for
a non-negative counter.

## Model

| member | source | states |
|---|---|---|
| Text.Trim | src/components/SettingsScreen.tsx:55 | `trim()` is the slice of the input whose cut-off prefix and suffix are whitespace only; a non-empty result neither starts nor ends with whitespace, so the slice is the one between the first and last non-whitespace characters; it is empty exactly when every character is ECMAScript whitespace |
| Text.Split | src/components/SettingsScreen.tsx:56 | `split("/")` returns at least one piece, no piece contains the separator, and joining the pieces with it gives back the input |
| Text.LastSegment | src/components/SettingsScreen.tsx:56 | `split("/").pop()` is the suffix after the last `/` (the whole string if there is none) and contains no `/` |
| Text.LastSegmentUnique | src/components/SettingsScreen.tsx:56 | that characterisation of "the part after the last `/`" determines the segment uniquely |
| Lists.Filter | src/components/SettingsScreen.tsx:71 | `filter` keeps exactly the elements satisfying the predicate, in order, as a subsequence, and as many as the count says |
| Lists.MapWhere | src/components/SettingsScreen.tsx:65-67 | the selective `map` keeps the length, applies the update exactly at selected positions and leaves every other position unchanged |
| Lists.Find | src/components/PlanSelector.tsx:72 | `find` returns nothing exactly when no element matches, and otherwise returns the first match |
| Settings.RepoName | src/components/SettingsScreen.tsx:56 | the derived name is non-empty and has no `/`; it is `new-repo` when the URL is empty or ends in `/`, and otherwise the text after the last `/` |
| Settings.AddRepository | src/components/SettingsScreen.tsx:54-62 | a blank URL changes nothing; otherwise exactly one disconnected entry with the untrimmed URL goes at the end, the existing entries keep their order, the input is cleared and nothing else changes |
| Settings.ToggleRepositoryConnection | src/components/SettingsScreen.tsx:64-68 | the length is kept; entries with the id have `connected` flipped and everything else unchanged; every other entry and every other screen field is unchanged |
| Settings.RemoveRepository | src/components/SettingsScreen.tsx:70-72 | the result is a subsequence with no entry of that id, every entry with another id survives, and the list shrinks by the number of entries carrying the id |
| Settings.RemoveAbsentRepository | src/components/SettingsScreen.tsx:70-72 | deleting an id no repository carries is the identity |
| Settings.ConnectedCount | src/components/SettingsScreen.tsx:169 | the header count equals the number of entries whose `connected` flag is set |
| Settings.AddWebhook | src/components/SettingsScreen.tsx:74-82 | a blank name or URL changes nothing; otherwise one enabled entry with the untrimmed name and URL and the events `["push"]` goes at the end and both inputs are cleared |
| Settings.ToggleWebhook | src/components/SettingsScreen.tsx:84-88 | the same frame as the repository toggle, for the `enabled` flag |
| Settings.RemoveWebhook | src/components/SettingsScreen.tsx:90-92 | the same subsequence and no-survivor properties as the repository delete |
| Settings.RemoveAbsentWebhook | src/components/SettingsScreen.tsx:90-92 | deleting an id no webhook carries is the identity |
| Settings.ActiveCount | src/components/SettingsScreen.tsx:269 | the header count equals the number of webhooks whose `enabled` flag is set |
| Settings.ToggleRepositoryTwice | src/components/SettingsScreen.tsx:64-68 | toggling the same id twice restores the screen |
| Settings.ToggleWebhookTwice | src/components/SettingsScreen.tsx:84-88 | toggling the same webhook id twice restores the screen |
| Settings.ToggleRepositoryMovesCountByOne | src/components/SettingsScreen.tsx:64-68 | with unique ids, toggling a present id lowers the connected count by one if that entry was connected and raises it by one otherwise |
| Settings.ToggleWebhookMovesCountByOne | src/components/SettingsScreen.tsx:84-88 | with unique ids, toggling a present webhook moves the active count by exactly one |
| Settings.AddRepositoryKeepsConnectedCount | src/components/SettingsScreen.tsx:59 | a new repository starts disconnected, so adding one never changes the connected count |
| Settings.AddWebhookRaisesActiveCount | src/components/SettingsScreen.tsx:78 | a successful webhook add raises the active count by exactly one, and a refused one leaves it unchanged |
| Settings.InitialFacts | src/components/SettingsScreen.tsx:44-52 | the initial lists have unique ids, one connected repository and one enabled webhook |
| Settings.Step | src/components/SettingsScreen.tsx:39-92 | a tab click changes only the tab, and each of the three typing events changes only its own input; webhook events leave the repository list and its input alone, repository events leave the webhook list and its inputs alone, and only a tab click changes the tab |
| Settings.StepPreservesUniqueIds | src/components/SettingsScreen.tsx:54-92 | unique ids are an invariant of every event as long as each add brings an id not already in its list |
| License.Utf16Length | src/components/LicenseKeyInput.tsx:12 | JavaScript length is 1 for a BMP character and 2 for one outside it; it lies between the number of characters and twice that, equals the character count for BMP-only text and twice it for astral-only text |
| License.Utf16LengthAppend | src/components/LicenseKeyInput.tsx:12 | the length of a concatenation is the sum of the lengths, which with the one-character case fixes the JavaScript length of every key |
| License.Utf16LengthMixed | src/components/LicenseKeyInput.tsx:12 | a BMP character followed by an astral one has JavaScript length 3 |
| License.Activate | src/components/LicenseKeyInput.tsx:11-17 | the verdict is `Valid` iff the length is at least 16 and `Invalid` iff it is below; the key and its visibility are unchanged |
| License.EditKey | src/components/LicenseKeyInput.tsx:37-40 | an edit replaces the key and resets the verdict to `Idle`, whatever it was, without touching visibility |
| License.ToggleShowKey | src/components/LicenseKeyInput.tsx:45 | the eye button flips visibility and keeps the key and the verdict |
| License.ToggleShowKeyTwice | src/components/LicenseKeyInput.tsx:45 | pressing the eye button twice restores the card |
| License.ActivateIdempotent | src/components/LicenseKeyInput.tsx:11-17 | activating twice is the same as activating once |
| License.EditThenActivate | src/components/LicenseKeyInput.tsx:37-40 | after an edit, activation judges the new key alone, whatever the card showed before |
| License.ActivateBmpKey | src/components/LicenseKeyInput.tsx:12 | for keys of BMP characters, activation succeeds iff the key has at least 16 characters |
| License.ActivateBoundary | src/components/LicenseKeyInput.tsx:11-17 | a 15-character key is rejected and a 16-character key is accepted |
| License.ActivateAstralKey | src/components/LicenseKeyInput.tsx:12 | a key of eight characters outside the BMP has JavaScript length 16 and is accepted |
| License.Step | src/components/LicenseKeyInput.tsx:9-45 | typing always clears the verdict; activation and the eye button never change the key |
| License.StepPreservesConsistent | src/components/LicenseKeyInput.tsx:9-45 | starting from the initial `Idle` card, every event keeps the displayed verdict consistent with the length of the key in the input |
| Plans.FindPlan | src/components/PlanSelector.tsx:72 | in a well-formed table (non-empty, distinct ids, positive quotas) the lookup finds nothing exactly when the id is absent, and otherwise the unique entry with that id |
| PlanSelector.TableFacts | src/components/PlanSelector.tsx:24-62 | the table is well formed and holds `free`, `pro`, `plus`, `premium` with quotas 5, 250, 500, 1000; `free` comes first and is the only tier without a price |
| PlanSelector.CurrentPlan | src/components/PlanSelector.tsx:72 | the current plan is a table entry with a positive quota: the entry with the selected id, or the first (free) entry for an unknown id |
| PlanSelector.CappedShare | src/components/PlanSelector.tsx:75 | `Math.min((used / total) * 100, 100)` for a positive total is at most 100, non-negative for a non-negative count, 100 exactly when the count reaches the total, and `used * 100 / total` below it |
| PlanSelector.CappedShareMonotone | src/components/PlanSelector.tsx:75 | a larger count never gives a smaller capped share of the same total |
| PlanSelector.Percentage | src/components/PlanSelector.tsx:75 | the bar width never exceeds 100; it is non-negative for a non-negative counter; it is 100 exactly when the quota is used up, and below that it is the exact share of the quota |
| PlanSelector.PercentageMonotone | src/components/PlanSelector.tsx:75 | for a fixed plan the width is non-decreasing in the number of used messages |
| PlanSelector.HandleSelectPlan | src/components/PlanSelector.tsx:77-80 | picking a plan reports exactly that id to the callback and closes the sheet |
| PlanSelector.AtMostOneCardSelected | src/components/PlanSelector.tsx:130 | at most one card passes the selected-mark test `selectedPlan === plan.id`, and exactly one does when the selected id is in the table |
| PlanSelector.SubscribeOffersPaidPlans | src/components/PlanSelector.tsx:196-200 | for a selection from the table the button appears exactly for paid plans; for an unknown id it appears and names the free plan the lookup fell back to |
| PricingPlans.TablesAgree | src/components/PricingPlans.tsx:17-55 | the grid's table equals the selector's entry for entry (ids, names, quotas, prices, badges) and is well formed |
| PricingPlans.ClickCard | src/components/PricingPlans.tsx:80 | clicking a card selects that card's id, which is therefore always an id from the table |
| PricingPlans.RunStaysInTable | src/components/PricingPlans.tsx:58 | from the initial `free` selection, any run of card clicks keeps the selection in the table |
| PricingPlans.CurrentPlanName | src/components/PricingPlans.tsx:68 | the badge finds a name exactly when the selection is in the table, and it is the name of the entry with that id |
| PricingPlans.BadgeAndSubscribe | src/components/PricingPlans.tsx:141-145 | for a selection in the table the badge names a plan and the subscribe button is shown exactly for a paid plan |
| PricingPlans.ReachableBadgeAndSubscribe | src/components/PricingPlans.tsx:68 | on every state reachable by clicks the badge lookup succeeds and the button is shown exactly for a paid plan |
| PricingPlans.InitialShowsFreePlan | src/components/PricingPlans.tsx:58 | the initial grid names the free plan and offers no subscription |
| Chat.Send | src/components/ChatInput.tsx:9-12 | blank input changes nothing; otherwise exactly one user message with the untrimmed text goes at the end, the earlier log is kept and the input is cleared |
| Chat.ReceiveReply | src/components/ChatInput.tsx:15-20 | the canned reply appends one non-user message and keeps the input |
| Chat.ClearChat | src/components/ChatInput.tsx:24-26 | clearing empties the log and keeps the input |
| Chat.KeyPress | src/components/ChatInput.tsx:28-33 | a key press sends iff the key is Enter without Shift, and otherwise changes nothing |
| Chat.Edit | src/components/ChatInput.tsx:73 | typing replaces the input and keeps the log |
| Chat.DisabledIffSendIsNoOp | src/components/ChatInput.tsx:82 | the send button is disabled exactly when sending would change nothing |
| Chat.WhitespaceIsNotSent | src/components/ChatInput.tsx:10 | an input of whitespace only is never sent |
| Chat.KeyPressLogGrowth | src/components/ChatInput.tsx:28-33 | a key press grows the log by one exactly for Enter without Shift on a non-blank input |
| Chat.Step | src/components/ChatInput.tsx:9-82 | typing replaces the input and keeps the log; clearing empties the log and keeps the input; the reply appends the canned message and keeps the input; the send button changes nothing exactly when the input is blank; a key other than Enter without Shift changes nothing; a send on non-blank input appends that input as a user message and clears it |
| Chat.StepKeepsUserMessagesNonBlank | src/components/ChatInput.tsx:7-26 | the empty initial log satisfies the invariant that user messages are non-blank, and every event keeps it |

## Left out

- Rendering: markup, class names, icons, colour gradients, animation and copy text, including the plans' feature lists.
- Timers: the canned chat reply is modelled as its own event, `Chat.ReceiveReply`, with no delay. Nothing ties it to an earlier send, so a reply may also arrive after a clear.
- Ids: `Date.now().toString()` is a caller-supplied `newId`. Unique ids are assumed only where a lemma says so, and kept by `Settings.StepPreservesUniqueIds` given fresh ids.
- React scheduling: each handler is one atomic transition on the state it reads. Batched updates and stale closures across one render are not modelled.
- The sheet's own open/close behaviour belongs to a UI library; only the selector's own `setIsOpen(false)` is modelled.
- No component shown renders `PlanSelector` (`Index.tsx` renders `PricingPlans`), so its props have no source. Its callback is an output of `PlanSelector.HandleSelectPlan`, and its `selectedPlan` and `usedMessages` are inputs.
- Price formatting with `toFixed(2)` and a decimal comma is float-to-string formatting. The prices are kept as exact reals.
- `SyncStatus.tsx` (a timer-driven spinner flag and an unclamped percentage, rendered by `Index.tsx` without its props) is left out. `Index.tsx`, `ExtensionHeader.tsx` and `ExtensionFooter.tsx` are composition and markup. No component shown switches between a main and a settings view, and the settings screen's close callback is not modelled.
- Persistence: none of the modelled files reads or writes browser storage.
- The paperclip button has no handler.
- Lone surrogates: a JavaScript string may hold an unpaired surrogate code unit, which has no Dafny `char`; keys are modelled as sequences of Unicode scalar values, so such keys are not represented.
- Settings.Step: every event is accepted on either tab. The screen renders the repository controls only on the repositories tab and the webhook controls only on the webhooks tab (`SettingsScreen.tsx:144,236`). The model over-approximates this, and the invariants it proves hold for every event on every tab.
- PlanSelector.Percentage: computed over exact reals rather than IEEE-754 doubles, so rounding in the division and the multiplication by 100 is not modelled.
