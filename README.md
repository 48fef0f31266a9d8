# DarkWeb-Forums-Tracker, modelled in Dafny

The tracker polls the RSS feeds of a list of forums, stores every item whose link it has not
seen before in an SQLite `items` table, extracts from each item a cleaned body and the
download links it mentions, and announces new items on DingTalk, Feishu, Telegram and Discord.
Discord deliveries go through a retry loop that honours rate limiting. This project models
the deterministic core of that program and proves what it promises:

- `basics.dfy` (module `Basics`): `Option`, and the Python `str` operations the program relies
  on (`split`, `split()`, `replace(p, "")`, `join`, `lower`, `startswith`, `isspace`).
- `extract.dfy` (module `Extract`): how one feed entry becomes a table row. The precedence of
  the entry's fields, HTML tag stripping, whitespace collapsing, mining, de-duplication and
  filtering of download links, and the two placeholders.
- `ingest.dfy` (module `Ingest`): `check_for_updates`. The table is a `Store` object whose row
  sequence only grows. The entry loop is a method proved against a step function, and
  lemmas cover whole runs: links stay unique, the returned list and the pushes match the
  inserted rows, and re-running a feed changes nothing.
- `retry.dfy` (module `Retry`): the Discord sender's retry loop. It is a method over a
  sequence of network outcomes and a sequence of jitter values, proved equal to a recursive
  specification. Lemmas bound the number of POSTs and the waits.
- `dispatch.dfy` (module `Dispatch`): which channels `push_message` uses, the Discord sender's
  guards and choice of card, and how it parses the update text built by `check_for_updates`.
- `schedule.dfy` (module `Schedule`): the night-sleep rule, the proxy settings, the polling
  pass over the data sources (which are polled, and where an exception ends the pass), and
  the "source" key used by the statistics.

Network, database and clock are inputs. A feed is a sequence of `Entry` values. The table is
a sequence of `Row` values. A Discord delivery is a sequence of `Response` values (status
code, `Retry-After` header, or the `requests` exception raised) plus the jitter drawn on each
attempt. The local time of a push is a string supplied per entry. The banner-removal
substitutions and the eight `re.findall` link patterns are function-valued parameters
(`Extract.Regexes`). Everything that happens to their results is modelled concretely.

Three behaviours of the code that are easy to misread:
- De-duplication goes through `list(set(...))`, so the stored link list has no defined
  order. Link properties are therefore stated as membership, not order.
- An entry whose `content` is an empty list makes `entry['content'][0]` raise. That exception
  is not caught inside `check_for_updates`, so it ends the feed's pass (`aborted`). Rows
  inserted before it stay committed. Nor is it caught in `main`'s site loop: it ends the
  whole polling pass (`Schedule.PollPass`), so later sites are not polled and the daily and
  weekly reports after the loop are skipped.
- A negative numeric `Retry-After` makes `time.sleep` raise. The retry loop does not catch
  that, so the sender's outer handler ends the delivery (`Crashed`), with no "maximum retries"
  message.

## Model

| member | source | states |
|---|---|---|
| Basics.Split | DarkWeb-Forums-Tracker.py:527 | `str.split(c)` gives at least one piece, exactly one when `c` is absent, and no piece contains `c` |
| Basics.Words | DarkWeb-Forums-Tracker.py:496 | `str.split()` gives non-empty pieces that contain no whitespace |
| Basics.RemoveAllAbsent | DarkWeb-Forums-Tracker.py:528-530 | `s.replace(p, "")` leaves a string in which `p` does not occur unchanged |
| Extract.StripTags | DarkWeb-Forums-Tracker.py:253 | removing `<[^>]+>` never lengthens the text, introduces no character, keeps a leading non-`<` character, and leaves no tag behind |
| Extract.StripTagsDropsTag | DarkWeb-Forums-Tracker.py:253 | a tag `<x>` (with `x` non-empty and free of `>`) preceded by text without `<` is removed and the text before and after it is kept: the result is that text followed by the stripped rest |
| Extract.StripTagsIdempotent | DarkWeb-Forums-Tracker.py:253 | stripping tags a second time changes nothing |
| Extract.SquashSpaces | DarkWeb-Forums-Tracker.py:255 | `re.sub(r'\s+', ' ', t)` leaves no two adjacent whitespace characters, uses only `' '` as whitespace, and keeps every other character in order |
| Extract.SquashSpacesWords | DarkWeb-Forums-Tracker.py:255 | collapsing whitespace runs keeps the words: `t.split()` is unchanged |
| Extract.Strip | DarkWeb-Forums-Tracker.py:255 | `.strip()` removes only a whitespace prefix and a whitespace suffix (the result is a slice of the input with nothing but whitespace around it), leaves no whitespace at either end, keeps a collapsed text collapsed, and keeps every non-whitespace character in order |
| Extract.StripWords | DarkWeb-Forums-Tracker.py:255 | `.strip()` keeps the words: `u.split()` is unchanged |
| Extract.CollapsedIsJoin | DarkWeb-Forums-Tracker.py:255 | a text with single spaces only and no whitespace at either end is its words joined by `' '` |
| Extract.TextContentJoinsWords | DarkWeb-Forums-Tracker.py:253-255 | `text_content` is `' '.join(body.split())` of the tag-stripped body: the same words, in order, separated by single spaces |
| Extract.TextContentShape | DarkWeb-Forums-Tracker.py:253-255 | `text_content` has no surrounding whitespace, no run of two whitespace characters, and the non-whitespace characters of the tag-stripped body |
| Extract.HttpOnlyMembers | DarkWeb-Forums-Tracker.py:287-291 | a match is kept exactly when it starts with `http://` or `https://` |
| Extract.CollectedMembers | DarkWeb-Forums-Tracker.py:283-291 | a string is in `all_matches` exactly when some pattern found it in the cleaned body or the text and it is an http(s) URL |
| Extract.AppendUrls | DarkWeb-Forums-Tracker.py:287-291 | the innermost loop appends exactly the http(s) matches of one `findall`, in order |
| Extract.MineLinks | DarkWeb-Forums-Tracker.py:281-291 | the nested pattern/source loops build exactly the specification's `all_matches`: patterns in order, cleaned body before text |
| Extract.Dedup | DarkWeb-Forums-Tracker.py:295 | the de-duplicated list has no repeats and the same members as its input |
| Extract.Filtered | DarkWeb-Forums-Tracker.py:298-301 | a link survives exactly when its lowercased form contains none of the nine excluded fragments; no repeats are introduced |
| Extract.SelectValidLinks | DarkWeb-Forums-Tracker.py:297-301 | the filtering loop builds exactly the filtered list |
| Extract.ValidLinksSpec | DarkWeb-Forums-Tracker.py:283-304 | every surviving link is an http(s) URL, appears once and contains no excluded fragment, and every non-excluded http(s) URL some pattern found survives |
| Extract.DownloadFieldSpec | DarkWeb-Forums-Tracker.py:303-308 | `download_links` is the placeholder exactly when no link survived, and otherwise starts with a surviving link |
| Extract.ExtractRow | DarkWeb-Forums-Tracker.py:201-312 | the row carries the entry's title, link, publication date, author (falling back to `dc_creator`), category (tag terms, else `category`) and site. Reading the body raises exactly when `content` is an empty list. Stored content is the placeholder when the text is shorter than 10 characters and the cleaned markup otherwise. The links field is `download_links` built from the surviving links: the placeholder exactly when none survived |
| Extract.ExtractEntry | DarkWeb-Forums-Tracker.py:211-312 | the step-by-step extraction (mining loops, set, filter loop, placeholders) yields exactly the specified row |
| Extract.EmptyBodyHasNoText | DarkWeb-Forums-Tracker.py:311 | an empty cleaned body has empty text, so the `not content` test adds nothing to the length test |
| Ingest.Store.Insert | DarkWeb-Forums-Tracker.py:315-319 | an insert with commit appends the row and changes no stored row |
| Ingest.CheckForUpdates | DarkWeb-Forums-Tracker.py:194-328 | the entry loop leaves the table, `data_list`, the pushes and the abort flag exactly as the step-by-step specification `Run` says |
| Ingest.UnusableEntrySkipped | DarkWeb-Forums-Tracker.py:201-205 | an entry without a title or a link changes neither the table, nor the returned list, nor the pushes |
| Ingest.StepExtends | DarkWeb-Forums-Tracker.py:207-327 | one entry adds at most one row, and only when it has a title and a link, its link was not stored and its body can be read; the row added is the one extracted from the entry. It adds that row's title and link to `data_list` and announces the row when `send_push` is set |
| Ingest.RunExtends | DarkWeb-Forums-Tracker.py:200-327 | a whole run only appends rows whose link no earlier row has. `data_list` is title, link for each new row in feed order, and the pushes announce the new rows one for one, or are empty without `send_push` |
| Ingest.RunKeepsLinksUnique | DarkWeb-Forums-Tracker.py:207-210 | stored links stay unique, including a link repeated within one feed, because each insert is committed before the next lookup |
| Ingest.RunKeepsRows | DarkWeb-Forums-Tracker.py:315-319 | a run never removes or changes a stored row |
| Ingest.RunCovers | DarkWeb-Forums-Tracker.py:200-319 | after a run that is not cut short, the link of every entry with a title and a link is stored |
| Ingest.RunCoveredIsNoop | DarkWeb-Forums-Tracker.py:207-210 | when every usable entry's link is already stored, a run changes nothing |
| Ingest.ReplayChangesNothing | DarkWeb-Forums-Tracker.py:207-231 | replaying entries against the table a run ended with changes no row and adds nothing to the returned list or the pushes. The replay is cut short exactly when the run was: an entry that raised raises again |
| Ingest.RerunInsertsNothing | DarkWeb-Forums-Tracker.py:207-210 | processing the same feed a second time inserts, returns and pushes nothing, whatever the clock reads and whether or not the first run was cut short, and it is cut short exactly when the first run was |
| Retry.Cap | DarkWeb-Forums-Tracker.py:613 | the wait is never above 60 seconds and is unchanged when not above it |
| Retry.Classify | DarkWeb-Forums-Tracker.py:590-644 | an attempt succeeds exactly on 200/204 and never reports exhaustion. With jitter `>= 0` (the source draws it from [0, 1]), a timeout or a connection error waits the capped backoff `2^attempt + jitter`, and a 429 without a negative `Retry-After` waits the capped header value, or the capped backoff when there is no numeric header. Only a 429, a timeout or a connection error can wait. Any other request error stops as a failure, and any other status stops as rejected with that code. Every wait lies in [0, 60] seconds |
| Retry.SendWithRetry | DarkWeb-Forums-Tracker.py:584-650 | the `for ... break ... else` loop yields exactly the POST count, waits and ending of the recursive specification `RetryFrom` |
| Retry.RetryShape | DarkWeb-Forums-Tracker.py:584-650 | between 1 and the remaining number of POSTs. Each wait is the one its attempt's outcome asks for, and every POST but a stopping last one is followed by a wait. The loop runs out only after all remaining attempts, otherwise it ends as its last attempt decided |
| Retry.DelaysBounded | DarkWeb-Forums-Tracker.py:578-613 | at most 5 POSTs, and every wait lies in [0, 60] seconds |
| Retry.ExhaustedIffAllRetriable | DarkWeb-Forums-Tracker.py:646-650 | the "maximum retries reached" branch runs exactly when all five attempts asked for a retry |
| Retry.SuccessStops | DarkWeb-Forums-Tracker.py:592-594 | the delivery succeeds exactly when its last POST was answered 200 or 204 |
| Retry.BackoffWindow | DarkWeb-Forums-Tracker.py:606-644 | when a POST that was sent (index `k`) gets a 429 without a numeric header, a timeout or a connection error, a wait follows it, and that wait lies in [2^k, 2^k + 1] for jitter in [0, 1], so the cap never cuts it |
| Retry.HeaderWait | DarkWeb-Forums-Tracker.py:598-613 | when a POST that was sent gets a 429 with a numeric `Retry-After` of `v >= 0`, a wait follows it. The wait is `v` when `v` is at most 60 seconds, 60 for `v` in (60, 1000], and `min(v / 1000, 60)` above 1000 |
| Retry.RetriableWaits | DarkWeb-Forums-Tracker.py:584-644 | every POST that was sent and got a retriable answer (a 429 with no negative header, a timeout or a connection error) is followed by a wait, so the loop goes on to the next attempt |
| Retry.NegativeHeaderCrashes | DarkWeb-Forums-Tracker.py:613-619 | whichever POST is answered by a 429 with a negative `Retry-After`, it is the last POST, and the delivery ends through the outer handler |
| Retry.AlwaysRateLimited | DarkWeb-Forums-Tracker.py:584-650 | five 429 answers without `Retry-After` give five POSTs, waits of about 1, 2, 4, 8 and 16 seconds, and exhaustion |
| Dispatch.PushTargets | DarkWeb-Forums-Tracker.py:348-367 | a channel is used exactly when its own `switch` is "ON", and for Discord also `send_normal_msg`. Channels are tried in a fixed order, none twice |
| Dispatch.ChannelsIndependent | DarkWeb-Forums-Tracker.py:352-366 | rewriting one channel's section does not change whether any other channel is used |
| Dispatch.EnabledLabels | DarkWeb-Forums-Tracker.py:446-458 | the startup card lists a channel exactly when its `switch` is "ON" |
| Dispatch.TargetsAreAnnounced | DarkWeb-Forums-Tracker.py:455-458 | every channel that receives notifications is listed on the startup card |
| Dispatch.GatedChannelAnnouncesStartup | DarkWeb-Forums-Tracker.py:1560-1568 | whenever some channel would receive notifications, the startup guard `any_push_enabled` holds, so the startup notice is sent unless the run is in `--daily-report` mode |
| Dispatch.StartupPostsCard | DarkWeb-Forums-Tracker.py:423-476 | with a webhook that is set, not the placeholder and starts with `http`, the startup notice POSTs the startup card, which carries the notice's title and text and the channels switched on |
| Dispatch.PlanDiscord | DarkWeb-Forums-Tracker.py:423-569 | nothing is POSTed unless the webhook is set, is not the placeholder and starts with `http`. A non-startup POST is a weekly report with a file or not a daily report. The sender returns early as unconfigured exactly when the webhook is unset or the placeholder |
| Dispatch.SendDiscardMsg | DarkWeb-Forums-Tracker.py:423-653 | the retry loop runs, over the given outcomes, exactly when the plan is to POST |
| Dispatch.ParseUpdateInvertsBody | DarkWeb-Forums-Tracker.py:527-530 | the Discord sender recovers title, link and push time from the text `check_for_updates` builds at line 324, provided no field contains a line break or its own prefix |
| Dispatch.LineBreakInTitleShiftsFields | DarkWeb-Forums-Tracker.py:527-530 | for an item title `a` + line break + `b` (neither half holding its field's prefix), the card shows `a` as the title and `b` as the link |
| Dispatch.UpdatePushReachesDiscord | DarkWeb-Forums-Tracker.py:321-324 | a push made by ingestion, with Discord enabled and a usable webhook, becomes an update card with the item's own title, link and push time |
| Dispatch.DailyReportNeverPosted | DarkWeb-Forums-Tracker.py:906-916 | the daily report call never leads to a POST, whatever the configuration |
| Dispatch.WeeklyCountRecovered | DarkWeb-Forums-Tracker.py:496 | the second word of the weekly text is the count it was built with |
| Dispatch.WeeklyCardCarriesCount | DarkWeb-Forums-Tracker.py:1045-1055 | the weekly report call with a usable webhook and a report file POSTs a weekly card showing the report's count |
| Dispatch.ShortWeeklyTextFails | DarkWeb-Forums-Tracker.py:493-496 | with a usable webhook and a report file, the weekly call fails before any POST exactly when its text has fewer than two words, and otherwise POSTs a weekly card showing the second word |
| Schedule.SleepSwitch | DarkWeb-Forums-Tracker.py:158 | the environment variable wins when set; otherwise the configured `night_sleep.switch`; otherwise "ON" |
| Schedule.BeijingHour | DarkWeb-Forums-Tracker.py:164-169 | the adjusted hour is `(utcHour + 8) mod 24` |
| Schedule.ShouldSleep | DarkWeb-Forums-Tracker.py:154-171 | sleep exactly when the switch is "ON" and the UTC hour is 16 to 22 |
| Schedule.QuietHoursAreSeven | DarkWeb-Forums-Tracker.py:162-171 | with the switch on, the quiet hours are Beijing hours 0 to 6 |
| Schedule.GetProxies | DarkWeb-Forums-Tracker.py:332-345 | `None` exactly when proxying is off (a missing `enable` counts as "OFF") or neither address is set. Otherwise the result has an `http` and/or `https` entry, each present exactly when its address is set and equal to it |
| Schedule.PollSites | DarkWeb-Forums-Tracker.py:1575-1585 | the site loop (the same in the once and loop modes, lines 1593-1601 and 1627-1635) yields exactly `PollPass`: sites in feed-list order, disabled ones skipped, and the loop left at the first poll that raises |
| Schedule.PassStops | DarkWeb-Forums-Tracker.py:1575-1585 | once a poll has raised, the rest of the feed list changes nothing about the pass |
| Schedule.CompletedIffReached | DarkWeb-Forums-Tracker.py:1575-1589 | the loop runs to its end, and the reports after it are reached, exactly when no polled site raises |
| Schedule.PolledMembers | DarkWeb-Forums-Tracker.py:1575-1585 | a site is polled exactly when it sits at some position of the feed list, its `datasources` entry is not 0, and every site before that position was skipped or polled without raising |
| Schedule.CompletePassPollsEnabled | DarkWeb-Forums-Tracker.py:1578 | in a pass that no exception cut short, a site is polled exactly when it is listed and its entry is not 0. A site missing from `datasources` is polled |
| Schedule.ListedArePolled | DarkWeb-Forums-Tracker.py:1551 | a site announced at startup as monitored (entry 1) is polled once the pass gets to it |
| Schedule.UnlistedSiteIsPolled | DarkWeb-Forums-Tracker.py:1551 | a site missing from `datasources` is polled but not announced |
| Schedule.EarlierRaiseSkipsSite | DarkWeb-Forums-Tracker.py:1657-1658 | a poll that raises ends the pass: with sites A then B and A's poll raising, only A is polled and the pass is incomplete |
| Schedule.Instr | DarkWeb-Forums-Tracker.py:781 | SQLite `INSTR` is 0 exactly when the character is absent, and otherwise the 1-based position of its first occurrence |
| Schedule.SqlSourceKey | DarkWeb-Forums-Tracker.py:795 | the grouping key is a prefix of the title without spaces, ending at the first space or at the end |
| Schedule.SourceKeyAgrees | DarkWeb-Forums-Tracker.py:836 | the report's `split(' ')[0]` of a title equals the SQL grouping key |
| Schedule.ReportLabelIsGroupKey | DarkWeb-Forums-Tracker.py:781 | whichever non-empty title of a group SQLite returns, the report labels the group with the group's key |

## Left out

- Feed fetching, SQLite access, HTTP requests and the DingTalk and Telegram client libraries are
  not modelled. Their results are inputs: entries, rows, responses.
- The banner-removal substitutions and the eight link patterns are parameters. Full regular
  expression matching is not modelled, and neither is the repeated `messageHide--attach`
  substitution, which is redundant.
- `Basics.Lower` lowers ASCII letters only. The only non-ASCII characters whose `lower()`
  contains ASCII are U+212A (Kelvin sign, to `k`) and U+0130 (to `i` followed by U+0307). No
  excluded fragment contains `k`, and in every fragment an `i` is followed by an ASCII letter,
  never by U+0307 and never at a fragment's end. So the exclusion test is exact.
- `Extract.Dedup` keeps first occurrences in order, while `list(set(...))` has no defined
  order. The properties proved about links are about membership only.
- Timestamps, the row id, the random card colour, footers, the git version, the run mode and
  the startup time are not modelled. The update card's fallback push time is the input `now`.
- `Dispatch.ParseUpdate`'s "无标题" fallback is unreachable, because `split('\n')` never returns
  an empty list, so it is not modelled.
- `Retry.HeaderWait`: `float()` also accepts "nan" and "inf". The model's `Numeric` carries a
  real number, so it does not capture those values.
- `Ingest.Step`: a push is assumed not to raise. `tgbot` imports `telegram` (line 1485) outside
  its `try`, so with Telegram switched on and the library missing, `push_message` raises after
  the INSERT has been committed. The row then stays stored, the Discord sender is not called,
  the title and link are not added to `data_list`, and the feed's pass ends. The model does not
  capture that path.
- `Schedule.PollSites`: whether a site's poll raises is an input (`raises`), the `aborted` flag
  of `Ingest.CheckForUpdates` for that site. The daily and weekly reports that follow a
  completed pass are not modelled beyond the `completed` flag.
- `Schedule.PolledMembers`: `datasources` values are modelled as the integers they compare equal
  to (`False` as 0, `True` as 1).
- The `load_config` merging of YAML and environment, report and RSS rendering, HTML and
  markdown writing, and the weekly SQL date window are left out. They are file and template
  I/O.
- Apart from its site loop (`Schedule.PollSites`), the continuous `while True` loop is left
  out. This includes its three-hour pause, its per-cycle exception cooldown, and its
  quiet-hours sleep length, which uses the host's local hour rather than the UTC+8 hour that
  `should_sleep` uses.
- The DingTalk, Feishu and Telegram senders are not modelled beyond the choice of channel: their
  own placeholder checks and HTTP calls.
- Network timeouts as durations, and the actual sleeping, are not modelled. Waits are recorded
  as reals.
