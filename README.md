# Verified model of the interactive cores of the AlphaPai insights deck

The deck is a client-only presentation site. Almost all of it is animation and copy. This project
models the parts that hold real logic:

- **Supply-chain impact propagation** (`SupplyChain`, `supply_chain.dfy`). The chart is a fixed
  graph of seven nodes and six links. Clicking an upstream node highlights two things: every node
  reachable from it, found by a queue-driven breadth-first traversal (`getAffectedNodes`), and every
  link whose two ends are highlighted (`getAffectedLinks`). While an upstream node with an impact
  entry is active, the `cogs` and `margin` nodes show that entry's text as their sublabels.
  The traversal is a method over an arbitrary link list. It is proved to return exactly the set of
  nodes reachable from the start. It is also proved to terminate on every link list, cyclic ones
  included, although a node can sit in the queue several times. The measure is the number of ids
  still unmarked, then the number of queue entries that are already marked.
- **Playbook builder** (`Playbook`, `playbook_builder.dfy`). Steps can be added only while
  recording. Steps can be removed by id. Saving needs a name that is not blank.
- **Sentiment drift** (`SentimentDrift`, `sentiment_drift.dfy`). There are two topics, each with
  four quarters. Choosing a topic clears the chosen quarter. Clicking a quarter toggles it. The
  quote shown is looked up by topic id, then by quarter label. Sentiments map to a colour and an
  icon.
- **Analyst selection capture** (`AnalystBrain`, `analyst_brain.dfy`). A trimmed selection longer
  than ten characters is linked to one of three metrics. The metric is chosen by keyword, and the
  subsidy keyword wins over the margin keyword. One connection and one log line are appended, and
  the hint is hidden for good.

Two small shared modules hold the JavaScript behaviour the components rely on:

- `Prelude` (`prelude.dfy`): optional values, truthiness of a `string | null`, `Array.prototype.find`
  and `substring(0, n)`.
- `JsText` (`js_text.dfy`): `String.prototype.trim`, over the WhiteSpace and LineTerminator sets of
  ECMAScript sections 12.2 and 12.3, and `String.prototype.includes`.

Each React component is a class whose fields are its `useState` fields. Each event handler is a
method that states the whole new state. Where a transition is worth reasoning about on its own
(`NextActive`, `ToggleQuarter`, `WithoutId`), it is a pure function with lemmas beside it.

On ids that are not declared nodes, a stricter design would report an "unknown node" error. The
code never consults `nodes`: an undeclared start id comes back as the singleton `{startId}`. The
model follows the code (`UnknownIdAffectsOnlyItself`).

## Model

| member | source | states |
|---|---|---|
| `SupplyChain.AffectedNodes` | src/components/SupplyChainDemo.tsx:43-56 | the result holds the start id, is closed under links, and holds an id exactly when that id is reachable from the start by following links forward; it terminates on every link list, cyclic ones included |
| `SupplyChain.QueueTargets` | src/components/SupplyChainDemo.tsx:49-53 | the old queue is kept as a prefix; every appended id is the target of a link leaving `current` and is not yet affected; every link leaving `current` ends in an affected or a queued id |
| `SupplyChain.RoundDecreases` | src/components/SupplyChainDemo.tsx:46-52 | one round either marks a new id, or keeps the marks and consumes an already-marked queue entry, even when that round queues duplicates |
| `SupplyChain.RoundKeepsFrontier` | src/components/SupplyChainDemo.tsx:46-52 | after a round, every link leaving an affected node ends in an affected or a queued node |
| `SupplyChain.RoundQueuesReachable` | src/components/SupplyChainDemo.tsx:46-52 | a round queues only ids that are reachable from the start |
| `SupplyChain.ClosedHoldsReachable` | src/components/SupplyChainDemo.tsx:46-52 | a link-closed set containing the start holds everything reachable from it, so the traversal never under-reaches |
| `SupplyChain.LinkKey` | src/components/SupplyChainDemo.tsx:62 | the key is the source id, a `-`, then the target id, and splits back into the two at the length of the source id |
| `SupplyChain.LinkKeyInjective` | src/components/SupplyChainDemo.tsx:62 | two links with source ids free of `-` that share a key are the same link |
| `SupplyChain.AffectedLinks` | src/components/SupplyChainDemo.tsx:58-66 | a key is in the result exactly when it is the `from-to` key of a link whose two ends are both affected; so every key names one of the links |
| `SupplyChain.SupplyChainDemo.Highlights` | src/components/SupplyChainDemo.tsx:69-71 | with no truthy active id both highlight sets are empty; otherwise they are the reachable set and the keys of the links inside it |
| `SupplyChain.NextActive` | src/components/SupplyChainDemo.tsx:134-151 | only upstream nodes change the selection; for an upstream node the selection is cleared exactly when that node was selected, and otherwise it becomes that node, replacing any other selection |
| `SupplyChain.ClickTwice` | src/components/SupplyChainDemo.tsx:151 | two clicks on the same upstream node restore the earlier selection when that was nothing or this node, and clear it otherwise |
| `SupplyChain.SupplyChainDemo.ClickNode` | src/components/SupplyChainDemo.tsx:151 | the click handler sets `activeId` to `NextActive` of the old one |
| `SupplyChain.SupplyChainDemo.constructor` | src/components/SupplyChainDemo.tsx:69 | nothing is active at first |
| `SupplyChain.Sublabel` | src/components/SupplyChainDemo.tsx:137-140 | a sublabel differs from the static one only for `cogs` or `margin` while the active id has an impact entry, and then it is that entry's text for the node |
| `SupplyChain.ActiveNode` | src/components/SupplyChainDemo.tsx:72 | the callout node is a declared node with the active id, and one is found whenever such a node exists |
| `SupplyChain.LinksJoinDeclaredNodes` | src/components/SupplyChainDemo.tsx:14-34 | every shipped link joins two declared nodes |
| `SupplyChain.NoLinkOutOnlyItself` | src/components/SupplyChainDemo.tsx:49-52 | an id with no outgoing link reaches only itself |
| `SupplyChain.UnknownIdAffectsOnlyItself` | src/components/SupplyChainDemo.tsx:43-56 | an id that is not a declared node affects exactly itself, and no error is raised |
| `SupplyChain.SiliconReach` | src/components/SupplyChainDemo.tsx:27-34 | from `silicon` exactly `silicon`, `wafer`, `cogs` and `margin` are affected |
| `SupplyChain.SiliconInducedLinks` | src/components/SupplyChainDemo.tsx:58-66 | on that set, exactly the links `silicon -> wafer`, `wafer -> cogs` and `cogs -> margin` have both ends affected, and `parts -> cogs` does not |
| `SupplyChain.SiliconLinks` | src/components/SupplyChainDemo.tsx:58-66 | on that set, the highlighted keys are exactly `silicon-wafer`, `wafer-cogs` and `cogs-margin` |
| `SupplyChain.CopperReach` | src/components/SupplyChainDemo.tsx:27-34 | from `copper` exactly `copper`, `parts`, `cogs` and `margin` are affected |
| `SupplyChain.CogsReach` | src/components/SupplyChainDemo.tsx:27-34 | from `cogs` exactly `cogs` and `margin` are affected; the impact never goes backward |
| `SupplyChain.MarginReach` | src/components/SupplyChainDemo.tsx:33 | `margin` affects only itself |
| `SupplyChain.CycleReach` | src/components/SupplyChainDemo.tsx:46-52 | on the cycle `a -> b -> c -> a`, exactly `a`, `b` and `c` are reachable from `a` |
| `Playbook.WithoutId` | src/components/PlaybookBuilder.tsx:52-54 | the kept steps are exactly the steps whose id differs, and there are no more of them than before |
| `Playbook.WithoutIdAppend` | src/components/PlaybookBuilder.tsx:53 | filtering a concatenation concatenates the filtered parts, so the kept steps stay in their original order |
| `Playbook.WithoutAbsentId` | src/components/PlaybookBuilder.tsx:53 | removing an id that no step carries leaves the list unchanged |
| `Playbook.WithoutIdIdempotent` | src/components/PlaybookBuilder.tsx:53 | removing the same id twice is the same as removing it once |
| `Playbook.AddThenRemove` | src/components/PlaybookBuilder.tsx:42-54 | removing a just-added step restores the earlier list, provided no earlier step has its id |
| `Playbook.PlaybookBuilder.constructor` | src/components/PlaybookBuilder.tsx:16-19 | no steps, not recording, empty name, dialog closed |
| `Playbook.PlaybookBuilder.AddStep` | src/components/PlaybookBuilder.tsx:42-50 | exactly one step, built from the chosen one, is appended at the end; nothing else changes |
| `Playbook.PlaybookBuilder.ClickAvailableStep` | src/components/PlaybookBuilder.tsx:108-112 | a click on a palette button appends that palette step only while recording; otherwise the click changes nothing |
| `Playbook.PaletteKinds` | src/components/PlaybookBuilder.tsx:21-40 | the palette holds two data steps and one prompt step, so no analysis step can be recorded |
| `Playbook.PlaybookBuilder.RemoveStep` | src/components/PlaybookBuilder.tsx:52-54 | the steps become `WithoutId` of the old ones; nothing else changes |
| `Playbook.PlaybookBuilder.ToggleRecording` | src/components/PlaybookBuilder.tsx:74 | `isRecording` flips and nothing else changes |
| `Playbook.PlaybookBuilder.OpenSaveDialog` | src/components/PlaybookBuilder.tsx:89-91 | the dialog opens only while there are steps |
| `Playbook.PlaybookBuilder.CloseSaveDialog` | src/components/PlaybookBuilder.tsx:214-217 | the dialog closes; nothing else changes |
| `Playbook.PlaybookBuilder.EditName` | src/components/PlaybookBuilder.tsx:208 | the name becomes the typed text; nothing else changes |
| `Playbook.PlaybookBuilder.SavePlaybook` | src/components/PlaybookBuilder.tsx:56-66 | a name made only of whitespace changes nothing; any other name closes the dialog and clears the steps and the name |
| `SentimentDrift.SentimentColor` | src/components/SentimentDriftDemo.tsx:40-47 | positive is emerald, neutral is amber and negative is rose, each exactly then; anything else gets the grey fallback |
| `SentimentDrift.SentimentIcon` | src/components/SentimentDriftDemo.tsx:49-56 | positive gets the rising trend, neutral the minus and negative the falling trend, each exactly then; anything else gets no icon |
| `SentimentDrift.ColorAndIconAgree` | src/components/SentimentDriftDemo.tsx:40-56 | the icon is missing exactly when the colour is grey; the three known sentiments get distinct colours and distinct icons |
| `SentimentDrift.LookupQuote` | src/components/SentimentDriftDemo.tsx:189 | a found quote belongs to a quarter with that label, inside a topic with that id; with no such topic nothing is found |
| `SentimentDrift.ShownQuote` | src/components/SentimentDriftDemo.tsx:123-189 | a quote is shown only while both a topic and a quarter are chosen |
| `SentimentDrift.LookupFindsEachQuarter` | src/components/SentimentDriftDemo.tsx:189 | when topic ids and quarter labels are distinct, each quarter of each topic yields its own quote |
| `SentimentDrift.ShippedQuarterLabels` | src/components/SentimentDriftDemo.tsx:17-38 | each shipped topic has the quarters `Q1` to `Q4`, in order |
| `SentimentDrift.ShippedDistinctKeys` | src/components/SentimentDriftDemo.tsx:17-38 | the shipped topic ids are distinct, and so are the quarter labels within each topic |
| `SentimentDrift.ShippedQuotes` | src/components/SentimentDriftDemo.tsx:17-38 | choosing any shipped topic and one of its quarters shows that quarter's quote |
| `SentimentDrift.ToggleQuarter` | src/components/SentimentDriftDemo.tsx:63-65 | the choice is cleared exactly when the clicked quarter was chosen; otherwise it becomes that quarter |
| `SentimentDrift.ToggleQuarterTwice` | src/components/SentimentDriftDemo.tsx:63-65 | two clicks on a quarter restore the earlier choice exactly when that was nothing or this quarter; after another quarter they leave nothing chosen |
| `SentimentDrift.SentimentDriftDemo.constructor` | src/components/SentimentDriftDemo.tsx:14-15 | nothing is chosen at first |
| `SentimentDrift.SentimentDriftDemo.TopicClick` | src/components/SentimentDriftDemo.tsx:58-61 | the topic is chosen and the quarter is always cleared |
| `SentimentDrift.SentimentDriftDemo.QuarterClick` | src/components/SentimentDriftDemo.tsx:63-65 | the quarter is toggled and the topic is left alone |
| `AnalystBrain.Accepted` | src/App.tsx:47-49 | a taken selection is longer than ten characters and not all whitespace; a selection of whitespace alone is never taken |
| `AnalystBrain.Target` | src/App.tsx:58 | the passage is linked to one of the three metrics |
| `AnalystBrain.TargetPrecedence` | src/App.tsx:58 | a passage containing 补贴 goes to Q4销售费用率; otherwise one containing 毛利 goes to Q4单车毛利率; otherwise it goes to Q4销量目标 |
| `AnalystBrain.ConnectionText` | src/App.tsx:57 | the connection text is at most the first fifty characters of the passage, followed by `...` |
| `AnalystBrain.LogEntry` | src/App.tsx:63 | the log line has the fixed head, quotes at most the first thirty characters of the passage right after it, and names the metric just before its closing bracket |
| `AnalystBrain.AnalystBrainCapture.constructor` | src/App.tsx:29-32 | no text, no connections, no log, and the hint is shown |
| `AnalystBrain.AnalystBrainCapture.HandleTextSelection` | src/App.tsx:45-67 | no selection, or a trimmed one of ten characters or fewer, changes nothing; a longer one records the trimmed text, hides the hint, and appends exactly one connection and one log line; the hint stays shown exactly while there is no connection |
| `JsText.StartIndex` | src/App.tsx:47 | the forward scan of `trim` stops at the first character that is not whitespace, having passed only whitespace |
| `JsText.EndIndex` | src/App.tsx:47 | the backward scan of `trim` stops just after the last character that is not whitespace, having passed only whitespace |
| `JsText.Trim` | src/App.tsx:47 | the result is no longer than the input and has no whitespace at either end; `TrimSpec` shows it is the input with a whitespace prefix and a whitespace suffix removed |
| `JsText.TrimSpec` | src/App.tsx:47 | `trim` keeps a contiguous middle part, drops only whitespace around it, and leaves no whitespace at either end |
| `JsText.TrimIdempotent` | src/App.tsx:47 | trimming twice is the same as trimming once |
| `JsText.TrimEmptyIffAllWhitespace` | src/components/PlaybookBuilder.tsx:57 | a string trims to empty exactly when every character is whitespace |
| `JsText.Includes` | src/App.tsx:58 | an included word is no longer than the text, and a prefix of the text is included; `IncludesSpec` shows it holds exactly when the word occurs at some index |
| `JsText.IncludesSpec` | src/App.tsx:58 | `includes` holds exactly when the word occurs at some index |
| `Prelude.Find` | src/components/SentimentDriftDemo.tsx:189 | `find` yields nothing exactly when no element matches, and otherwise yields the first match |
| `Prelude.FindUnique` | src/components/SentimentDriftDemo.tsx:189 | when exactly one element matches, `find` yields it |
| `Prelude.Prefix` | src/App.tsx:57 | `substring(0, n)` is a prefix of length `n`, or the whole string when it is shorter |

## Left out

- Timing: `savePlaybook` and `handleTextSelection` do their second half in a 500 ms `setTimeout`. The model does that half at once. The appends use functional updates, so the final lists do not depend on the delay. The other timed demos are not modelled.
- `Playbook.PlaybookBuilder.SavePlaybook`: does not model the `alert` shown after the delay, or the window in which the dialog is closed but the steps are not yet cleared.
- `AnalystBrain.AnalystBrainCapture.HandleTextSelection`: does not model the window in which the hint is hidden but the connection is not yet added. Because of that window, its invariant (the hint shows exactly while there are no connections) holds only once the delayed half has run.
- `window.getSelection()` and `Date.now()` become parameters. Ids from `Date.now()` are not unique, and nothing here assumes they are (`AddThenRemove` requires it explicitly).
- JavaScript measures strings in UTF-16 code units; the model uses Unicode characters. They agree on the text here, which is all in the Basic Multilingual Plane.
- `SupplyChain.AffectedLinks`: keys `from-to` can collide when ids contain `-`. The contract speaks of keys. `LinkKeyInjective` shows keys are unique when source ids contain no `-`, as the shipped ones do.
- `SupplyChain.Sublabel`: the `impactText[activeId]` lookup in JavaScript also finds inherited properties such as `constructor`. Only upstream ids can become active, so the model treats the object as a plain map.
- JavaScript `Set` iteration order is not modelled; the results are used only for membership.
- All rendering is left out: positions, colours of tiers, animation, icons as React elements, `keywords.slice(0, 2)` and the callout text.
- The canvas backgrounds, trigonometric layouts, video, observers and the other widgets of the deck are not part of this model.

## Findings

None.
