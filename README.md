# line_notify_rss: incremental feed step

A model of the incremental step of a small RSS-to-LINE-Notify bridge. The
service keeps one watermark (the publication time of the entry it last
treated as processed) in a file. Each run reads the watermark, walks the
parsed feed in order, builds the message `New post: <title>\nLink: <link>`
for every entry published strictly after the watermark (every entry when
there is no watermark), sends those messages, and, when at least one entry
was kept, overwrites the watermark with the time of the feed's first entry.
A reset removes the file.

- `options.dfy`: the `Option` datatype (`None` is Python's `None`).
- `watermark_store.dfy`: module `WatermarkStore`, the class `Store` whose
  field `file` is the state of the watermark file (missing, blank after
  stripping, or holding one timestamp), with `Get`, `Set` and `Reset`.
- `feed_dispatcher.dfy`: module `FeedDispatcher`: the entry type, the
  selection test, the message text, the selected subsequence and the next
  watermark as functions; the run as the method `FetchAndNotify`, whose loop
  builds the list of messages, which posts them and which then updates the
  store unless a post raised; and the lemmas about selection, the advance
  target, send outcomes, monotonicity and re-runs.

Timestamps are whole seconds (`int`): the parsed time has whole-second
resolution, and the source uses its first six fields, year to second. The
notification collaborator is the parameter `send` of `FetchAndNotify`: the
outcome of each post is either the HTTP status it returned or an exception
it raised (a connection error or the HTTP client's timeout).

The code ignores the statuses the posts return: an error status still lets
the watermark advance (`StatusesIgnored`). A post that raises makes awaiting
the batch raise, so the run stops before the watermark is written
(`FetchAndNotify`, `AfterRun`). On a feed whose first entry is not the
newest, the watermark can move backward (`UnorderedFeedMovesBack`).

## Model

| member | source | states |
|---|---|---|
| `FeedDispatcher.Message` | app.py:56 | the message is "New post: ", then the title, then a line break and "Link: ", then the link, and nothing else, so its length is 17 plus the title's and the link's |
| `FeedDispatcher.Selected` | app.py:51-53 | the kept entries are no more than the feed's and every one passes the selection test |
| `FeedDispatcher.NextWatermark` | app.py:58-63 | the watermark after a run is either the old one or the time of the first entry of the whole feed, and an empty feed leaves it as it was |
| `FeedDispatcher.Dispatch` | app.py:57-59 | every message of the batch is posted, one outcome per message, in batch order |
| `FeedDispatcher.FetchAndNotify` | app.py:46-63 | the messages posted are exactly one per kept entry, in feed order, each the message of that entry; the run reports a raise exactly when some post raised; the new watermark is `AfterRun` of the old one, the feed and the outcomes; the file is not written when nothing was kept or a post raised, and otherwise holds the first feed entry's time |
| `FeedDispatcher.StatusesIgnored` | app.py:43-63 | when no post raised, the statuses returned, error statuses included, make no difference: the watermark becomes `NextWatermark` |
| `FeedDispatcher.RunNeverBackward` | app.py:53-63 | when the first entry is the newest, a run never moves the watermark backward, whatever its posts returned or raised |
| `FeedDispatcher.ScenarioRuns` | app.py:46-63 | on the feed [B at 100, A at 50]: no watermark keeps both and sets 100; watermark 100 keeps nothing and stays 100; watermark 50 keeps only B and sets 100 when B's post returns a status, even an error status, and stays 50 when it raises |
| `WatermarkStore.Decode` | app.py:21-27 | a file state reads as a timestamp exactly when the file exists and holds a stamp, and then as that stamp; a missing or blank file reads as absent |
| `WatermarkStore.Store.Get` | app.py:21-27 | returns the watermark the file holds; absent when there is no file and when the stored text is blank |
| `WatermarkStore.Store.Set` | app.py:29-31 | the file now holds exactly the given stamp, so the next read yields it, whatever was there before |
| `WatermarkStore.Store.Reset` | app.py:33-35 | afterwards there is no file and the watermark reads as absent whatever it was; on a missing file nothing changes |
| `FeedDispatcher.SelectedAppend` | app.py:51-57 | selecting from a concatenation is the concatenation of the selections, so kept entries keep their relative feed order |
| `FeedDispatcher.SelectedMembers` | app.py:51-53 | an entry is kept if and only if it is in the feed and the watermark is absent or older than it |
| `FeedDispatcher.SelectedAfter` | app.py:52-53 | with watermark `t`, an entry is kept if and only if its time is strictly greater than `t`; one whose time equals `t` is never sent again |
| `FeedDispatcher.SelectAllNew` | app.py:51-53 | when every entry passes the test, the selection is the whole feed in its order |
| `FeedDispatcher.FirstRun` | app.py:51-63 | with no watermark every entry is kept in feed order and the watermark becomes the first entry's time (stays absent on an empty feed) |
| `FeedDispatcher.NothingNew` | app.py:51-63 | when no entry passes the test, nothing is kept and the watermark is left as it was |
| `FeedDispatcher.EmptyFeed` | app.py:58-63 | an empty feed keeps nothing and leaves the watermark unchanged |
| `FeedDispatcher.SelectedInFeedOrder` | app.py:51-57 | there are strictly increasing feed positions at which the kept entries occur, one per kept entry |
| `FeedDispatcher.AdvanceTarget` | app.py:58-63 | as soon as any entry is new, the next watermark is the time of the first entry of the whole feed, kept or not |
| `FeedDispatcher.NeverBackward` | app.py:53-62 | when the first entry is the newest, the next watermark is never earlier than the current one |
| `FeedDispatcher.RerunSelectsNothing` | app.py:53-63 | when the first entry is the newest, a second run over the same feed keeps nothing and leaves the watermark where the first run put it |
| `FeedDispatcher.UnorderedFeedMovesBack` | app.py:58-63 | when some entry is newer than the watermark but the first entry is older, the watermark moves back to the first entry's time |

## Left out

- The HTTP routes `/notify` and `/reset` and the event-loop set-up (app.py:65-78): they only trigger a run or a reset.
- `send_line_notify` and the HTTP session (app.py:37-44, 49): the network post is the parameter `send`, a function from the post's position in the batch and its message to its outcome (a status or a raise).
- The concurrency of `asyncio.gather` (app.py:59): the posts are modelled as one sequence of outcomes; the order in which they complete has no effect on the watermark.
- FetchAndNotify: does not say which of the other posts of a batch still reach the service after one raises (the HTTP session is closed as the exception leaves it); the model treats every message of the batch as posted.
- FetchAndNotify: every entry has a title, a link and a parsed time; in the source an entry without a usable parsed time, or a kept entry without a title or link, raises inside the loop, so the run stops before any post and before any write.
- Feed fetching with `feedparser.parse` (app.py:48): the run takes the parsed entry sequence as input; fetch failures are not modelled.
- The file system and the date-time text (app.py:22-35): the file is the field `Store.file`; ISO-8601 formatting and parsing, and the error raised on malformed text, are not modelled.
- The token and the fixed URLs (app.py:13-19): configuration only.
- Retries, and mutual exclusion between overlapping runs: the code has neither.
