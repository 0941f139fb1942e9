# Topic registry and bounded session history

This project models the two stateful pieces of a command-line runner for
root-cause-analysis conversations ("5 Whys" and Ishikawa).

- The **topic registry** is an append-only ledger of `TopicItem`s. Each item
  has a description, an `asked` flag and an optional conclusion. A language
  model drives it through four tools: `add_topic`, `mark_topic_answered`,
  `next_unanswered_topic` and `get_topics_summary`. A topic's identity is its
  zero-based index. A topic counts as *answered* when its conclusion is
  present and not empty. All four tools act on one registry shared by the
  whole process.
- The **in-memory session** keeps a sliding window of the most recent
  `max_items` conversation items, oldest first. It can read a window, append
  items (evicting the oldest first), pop the newest item, and clear.

Files:

- `wrappers.dfy`: `Option`, which stands for Python's `None` or a value.
- `text.dfy`: `str(n)` for indices and `"\n".join`. Each comes with an
  inverse (a decimal reader, a line splitter) that it round-trips with
  (for the splitter, one or more lines without a line break).
- `topics.dfy`: `TopicItem`, the `TopicList` class and the four tools. It
  also holds a reader for the status lines, so that the rendered summary can
  be proved to carry each topic's index and flags.
- `session.dfy`: the `InMemorySession<T>` class, with Python's slice
  semantics written out. It ends with two client scenarios that mirror the
  unit tests. `topics.dfy` ends with two client scenarios that mirror its unit
  tests and a third, `EmptyConclusionScenario`, which mirrors no test: it
  shows an empty conclusion leaving a topic open and a later conclusion
  overwriting an earlier one.

The registry's invariant is `Valid()`: every answered topic has been asked.
The mutating methods do not require it, because the source does not. They
promise to keep it when it held before (`old(Valid()) ==> Valid()`), and the
constructor establishes it. The session's `Valid()` is the capacity bound
`|items| <= maxItems`, which applies whenever the capacity is positive.

Behaviour the model keeps from the code:

- **Conclusions can be overwritten.** A conclusion can be set again:
  `mark_answered` overwrites it.
- **An empty conclusion does not answer a topic.** `mark_answered(i, "")`
  sets `asked` but leaves the topic open, because `answered` is
  `bool(conclusion)`.
- **The capacity is any integer.** The code accepts any integer for
  `max_items`, not only a positive one. With `max_items = 0` the session
  never trims. With a capacity of -k, Python's slicing drops min(k, length)
  items from the front.
- **Limits of zero or less.** The effective limit is the smaller of the
  limit and the capacity. An effective limit of 0 returns the whole history,
  since `xs[-0:]` is all of `xs`; so `get_items(0)` returns everything only
  when the capacity is 0 or more. With a negative capacity, a limit of 0
  (or no limit, or any limit at or above the capacity) has the capacity
  itself as its effective limit. A negative effective limit -k drops
  min(k, length) items from the front. The model keeps these slicing results
  exactly as Python gives them.

## Model

| member | source | states |
|---|---|---|
| `Topics.NewTopic` | src/tools/topics_registry.py:59 | a new topic keeps its description, is not asked, has no conclusion and is therefore not answered |
| `Topics.Concluded` | src/tools/topics_registry.py:66-68 | a resolved topic keeps its description, is asked, holds exactly the new conclusion (replacing any earlier one) and is answered exactly when that conclusion is non-empty |
| `Topics.TopicList.constructor` | src/tools/topics_registry.py:50-54 | the shared registry starts empty and satisfies the answered-implies-asked invariant |
| `Topics.TopicList.Add` | src/tools/topics_registry.py:58-61 | appends exactly one fresh topic and leaves the earlier items unchanged; returns the old length, so successive adds hand out 0, 1, 2, ...; keeps the invariant |
| `Topics.TopicList.MarkAnswered` | src/tools/topics_registry.py:63-69 | returns true exactly when 0 <= index < length; false leaves the ledger identical; true replaces only the item at index by its concluded form (same length, description and other items); keeps the invariant |
| `Topics.TopicList.NextUnansweredIndex` | src/tools/topics_registry.py:71-75 | returns None exactly when every topic is answered; otherwise it returns an index in range whose topic is open, with every earlier topic answered (the first open topic) |
| `Topics.TopicList.SummaryLines` | src/tools/topics_registry.py:77-84 | exactly one line per topic, in index order, line i being the rendering of topic i |
| `Topics.SummaryLineHeader` | src/tools/topics_registry.py:80-83 | reading the front of a topic's line gives back its index, whether it is answered (ANSWERED/OPEN) and whether it was asked (asked/not-asked) |
| `Topics.TopicItem.Answered` | src/tools/topics_registry.py:32-35 | a topic is answered exactly when its conclusion is present and non-empty: an absent conclusion and an empty one both leave it open |
| `Topics.SummaryLine` | src/tools/topics_registry.py:80-83 | a topic's line opens with its bracketed index, and it holds no line break when neither the description nor the conclusion does |
| `Topics.SummaryLineCases` | src/tools/topics_registry.py:80-83 | the exact line in each case: an open topic (asked or not) gives "[i] OPEN (asked/not-asked) :: description" and nothing more; an answered topic adds the conclusion separator and its conclusion after "[i] ANSWERED (...) :: description" |
| `Topics.NewTopicLine` | src/tools/topics_registry.py:80-83 | a freshly added topic is rendered as "[i] OPEN (not-asked) :: description" |
| `Topics.TopicsSummary` | src/tools/topics_registry.py:190-193 | no lines give the placeholder "No topics registered yet."; otherwise the text starts with the first line |
| `Topics.TopicsSummarySplits` | src/tools/topics_registry.py:190-193 | a summary of one or more lines, none holding a line break, splits back into exactly the given lines |
| `Topics.AddTopic` | src/tools/topics_registry.py:91-114 | the tool appends one fresh topic to the shared registry and returns its index (the old length) |
| `Topics.MarkTopicAnswered` | src/tools/topics_registry.py:117-137 | the tool succeeds exactly for an index in range; on failure nothing changes, on success only that topic is concluded and marked asked |
| `Topics.NextUnansweredTopic` | src/tools/topics_registry.py:140-166 | -1 exactly when every topic is answered (including the empty registry); otherwise the index of the first open topic |
| `Topics.GetTopicsSummary` | src/tools/topics_registry.py:169-193 | the placeholder for an empty registry; otherwise a text whose lines are exactly the status lines of the topics in index order (when no field holds a line break) |
| `Text.NatToDecimal` | src/tools/topics_registry.py:83 | the index is written as at least one decimal digit, with a leading zero only for 0 |
| `Text.DecimalRoundTrip` | src/tools/topics_registry.py:83 | reading back the digits written for an index gives the index |
| `Text.DecimalInjective` | src/tools/topics_registry.py:83 | distinct indices are written differently, so lines of different topics never share a label |
| `Text.JoinLines` | src/tools/topics_registry.py:193 | joining no lines gives ""; otherwise the text starts with the first line and its length is all the lines' lengths plus one separator between each pair of neighbours |
| `Text.SplitJoinRoundTrip` | src/tools/topics_registry.py:193 | joining lines with "\n" and splitting at line breaks gives the lines back when none holds a line break |
| `Session.InMemorySession.constructor` | src/local_agents/in_memory_session.py:17-26 | a session starts empty, holding the given id and capacity (default 4); both are constants that nothing changes later |
| `Session.EffectiveLimit` | src/local_agents/in_memory_session.py:39-43 | the effective limit is the capacity without a limit, else the smaller of limit and capacity |
| `Session.InMemorySession.GetItems` | src/local_agents/in_memory_session.py:28-48 | empty history gives []; a positive effective limit gives the newest min(effective limit, length) items (min(capacity, length) with no limit), oldest first; an effective limit of 0 gives everything; a negative effective limit -k drops min(k, length) items from the front (so a limit of 0 gives everything only when the capacity is 0 or more); nothing is changed |
| `Session.GetItemsBounded` | src/local_agents/in_memory_session.py:35-48 | with a positive capacity and no limit or a positive one, the window is no longer than the capacity and is a suffix of the history |
| `Session.GetItemsClamped` | src/local_agents/in_memory_session.py:39-43 | a limit at or above the capacity returns the same as asking for the capacity or for no limit |
| `Session.GetItemsZero` | src/local_agents/in_memory_session.py:43-48 | with a capacity of 0 or more, a limit of 0 returns the whole history |
| `Session.PySuffix` | src/local_agents/in_memory_session.py:48-58 | Python's xs[start:]: a negative start -k keeps the last min(k, length) elements, a start of 0 or more drops that many from the front (all when there are fewer) |
| `Session.InMemorySession.AddItems` | src/local_agents/in_memory_session.py:50-58 | adding nothing changes nothing; with a positive capacity, the history becomes the newest min(capacity, old + added) items of old ++ added, in order (so it stays within the capacity); capacity 0 never trims; a negative capacity drops from the front |
| `Session.WindowAppend` | src/local_agents/in_memory_session.py:56-58 | for any window length, trimming after each batch gives the same history as trimming once after all batches, and AddItems leaves exactly that window when the capacity is positive, so there adding items one batch at a time equals adding them together (with capacity 0 nothing is ever trimmed, so batches agree trivially; a negative capacity does not have this property) |
| `Session.InMemorySession.PopItem` | src/local_agents/in_memory_session.py:60-66 | None with no change on an empty history; otherwise the newest item, with the history shortened to the items before it |
| `Session.InMemorySession.ClearSession` | src/local_agents/in_memory_session.py:68-71 | the history becomes empty, so any following read returns [] |

## Left out

- The process-wide singleton (`TopicList.__new__` and `_GLOBAL_TOPICS`) is one `TopicList` object that is passed to the four tool methods. Dafny has no mutable global state. Lazy creation on first use is the constructor.
- The `@function_tool` decorator, the tool docstrings shown to the language model, and `async`/`await` are not modelled. The session methods never suspend, so they are ordinary sequential methods.
- Pydantic's validation of `TopicItem` fields is not modelled. Fields are typed values in the model.
- Conversation items (`TResponseInputItem`) are opaque. They are a type parameter `T`.
- The unit tests reset the registry by assigning `items = []` directly. `items` is a public field here too, and no reset operation is modelled.
- `Topics.GetTopicsSummary`: the promise that the text splits back into one line per topic is stated only when no description or conclusion holds a line break. A line break inside a field makes that topic span several lines of the text.
- `Topics.TopicsSummarySplits`: the split-back promise has the same condition, for the same reason.
- Everything outside these two components is not part of this model: agent and prompt definitions, structured-output schemas, summary renderers, the command line, provider selection, logging and `ask_human`'s console I/O.
