/** Fan-out of a notification to the configured channels, and the Discord sender's decision
    of whether and what to POST before its retry loop runs.

    Configuration sections are maps from key to value; `push` is the `push` section of the
    configuration, one inner map per channel. The DingTalk, Feishu and Telegram senders are
    calls into libraries and are represented only by the channel being chosen. */
module Dispatch {
  import opened Basics
  import Ingest
  import opened Retry

  /** The four channels, in the order `push_message` tries them. */
  datatype Channel = DingTalk | Feishu | Telegram | Discord

  /** The channel's section name under `push` (the Discord section is spelled `discard`). */
  function SectionName(c: Channel): string {
    match c
    case DingTalk => "dingding"
    case Feishu => "feishu"
    case Telegram => "tg_bot"
    case Discord => "discard"
  }

  /** Position of a channel in the fan-out order. */
  function Rank(c: Channel): nat {
    match c
    case DingTalk => 0
    case Feishu => 1
    case Telegram => 2
    case Discord => 3
  }

  /** The label the startup card lists for an enabled channel. */
  function Label(c: Channel): string {
    match c
    case DingTalk => "钉钉"
    case Feishu => "飞书"
    case Telegram => "Telegram Bot"
    case Discord => "Discard"
  }

  /** Section `name` exists and its `key` is exactly "ON" (a missing key counts as ""). */
  predicate SwitchOn(push: map<string, map<string, string>>, name: string, key: string) {
    name in push && Get(push[name], key).GetOr("") == "ON"
  }

  /** Whether `push_message` hands a notification to channel `c`: the channel's own switch,
      and for Discord its `send_normal_msg` switch as well. */
  predicate Gated(push: map<string, map<string, string>>, c: Channel) {
    SwitchOn(push, SectionName(c), "switch") && (c == Discord ==> SwitchOn(push, "discard", "send_normal_msg"))
  }

  function OnlyIf(b: bool, c: Channel): seq<Channel> {
    if b then [c] else []
  }

  /** The senders `push_message` calls, in order. */
  function PushTargets(push: map<string, map<string, string>>): (r: seq<Channel>)
    ensures forall c :: c in r <==> Gated(push, c)
    ensures forall i, j :: 0 <= i < j < |r| ==> Rank(r[i]) < Rank(r[j])
  {
    OnlyIf(SwitchOn(push, "dingding", "switch"), DingTalk)
    + OnlyIf(SwitchOn(push, "feishu", "switch"), Feishu)
    + OnlyIf(SwitchOn(push, "tg_bot", "switch"), Telegram)
    + OnlyIf(SwitchOn(push, "discard", "switch") && SwitchOn(push, "discard", "send_normal_msg"), Discord)
  }

  /** Channels are independent: rewriting one channel's section does not change whether any
      other channel is sent to. */
  lemma ChannelsIndependent(push: map<string, map<string, string>>, name: string, section: map<string, string>, c: Channel)
    requires name != SectionName(c)
    ensures c in PushTargets(push[name := section]) <==> c in PushTargets(push)
  {
  }

  function LabelIf(push: map<string, map<string, string>>, c: Channel): seq<string> {
    if SwitchOn(push, SectionName(c), "switch") then [Label(c)] else []
  }

  /** The labels the startup card lists: the channels whose `switch` is "ON", in order. */
  function EnabledLabels(push: map<string, map<string, string>>): (r: seq<string>)
    ensures forall c :: Label(c) in r <==> SwitchOn(push, SectionName(c), "switch")
  {
    LabelIf(push, DingTalk) + LabelIf(push, Feishu) + LabelIf(push, Telegram) + LabelIf(push, Discord)
  }

  /** The "推送渠道" field of the startup card. */
  function ChannelsField(push: map<string, map<string, string>>): string {
    var labels := EnabledLabels(push);
    if labels == [] then "无" else Join(labels, ", ")
  }

  /** Every channel that receives ordinary notifications is announced on the startup card. */
  lemma TargetsAreAnnounced(push: map<string, map<string, string>>, c: Channel)
    requires c in PushTargets(push)
    ensures Label(c) in EnabledLabels(push)
  {
  }

  /** `any_push_enabled`: some section under `push` has its `switch` set to "ON" (a missing
      `switch` counts as "OFF"). Outside `--daily-report` mode the startup notice is sent
      exactly when it holds. */
  predicate AnySwitchOn(push: map<string, map<string, string>>) {
    exists name :: name in push && Get(push[name], "switch").GetOr("OFF") == "ON"
  }

  /** Whenever some channel would receive notifications, the startup guard
      `any_push_enabled` holds. */
  lemma GatedChannelAnnouncesStartup(push: map<string, map<string, string>>, c: Channel)
    requires c in PushTargets(push)
    ensures AnySwitchOn(push)
  {
    var name := SectionName(c);
    assert name in push && Get(push[name], "switch").GetOr("OFF") == "ON";
  }

  // ---------------------------------------------------------------------------------------
  // The Discord sender, up to the retry loop

  const WebhookPlaceholder: string := "discard的webhook地址"

  /** The keyword arguments of one call of the Discord sender. `htmlFile` is `None` or the
      report file name; `markdown_content` is accepted by the sender but never read. */
  datatype DiscordCall = DiscordCall(
    webhook: Option<string>,
    title: string,
    content: string,
    isDailyReport: bool,
    isWeeklyReport: bool,
    htmlFile: Option<string>,
    isStartup: bool)
  {
    /** `html_file` is truthy. */
    predicate HasHtml() {
      htmlFile.Some? && htmlFile.value != ""
    }
  }

  /** The webhook is set and is not the template's placeholder. */
  predicate Configured(webhook: Option<string>) {
    webhook.Some? && webhook.value != "" && webhook.value != WebhookPlaceholder
  }

  /** The card that is POSTed. The colour, footer, timestamp, version and run mode are left
      out; the update card's colour is random. */
  datatype Embed =
    | StartupCard(title: string, description: string, channels: string)
    | WeeklyCard(title: string, count: string, reportFile: string)
    | UpdateCard(title: string, itemTitle: string, itemLink: string, pushTime: string)

  /** What the sender does before the retry loop: return early with one of three reasons,
      fail while building the card (the exception is caught by the sender), or POST a card. */
  datatype Plan = SkipUnconfigured | SkipBadScheme | SkipDailyReport | Failed | Post(embed: Embed)

  /** The fields the sender recovers from an update notification's text. */
  datatype UpdateFields = UpdateFields(itemTitle: string, itemLink: string, pushTime: string)

  /** Line 1 without its title prefix, line 2 without its link prefix (or "" if missing),
      line 3 without its time prefix (or the current local time `now` if missing). */
  function ParseUpdate(content: string, now: string): UpdateFields {
    var lines := Split(content, '\n');
    UpdateFields(
      RemoveAll(lines[0], Ingest.TitlePrefix),
      if |lines| > 1 then RemoveAll(lines[1], Ingest.LinkPrefix) else "",
      if |lines| > 2 then RemoveAll(lines[2], Ingest.TimePrefix) else now)
  }

  /** The weekly report's `content.split()[1]`, or `None` where Python raises IndexError. */
  function SecondWord(content: string): Option<string> {
    var words := Words(content);
    if |words| > 1 then Some(words[1]) else None
  }

  function PlanDiscord(call: DiscordCall, push: map<string, map<string, string>>, now: string): (r: Plan)
    ensures r.Post? ==> Configured(call.webhook) && StartsWith(call.webhook.value, "http")
    ensures r == SkipUnconfigured <==> !Configured(call.webhook)
    ensures r.Post? && !call.isStartup ==> (call.isWeeklyReport && call.HasHtml()) || !call.isDailyReport
    ensures r == Failed ==> call.isWeeklyReport && call.HasHtml() && !call.isStartup
  {
    if !Configured(call.webhook) then SkipUnconfigured
    else if !StartsWith(call.webhook.value, "http") then SkipBadScheme
    else if call.isStartup then Post(StartupCard(call.title, call.content, ChannelsField(push)))
    else if call.isWeeklyReport && call.HasHtml() then
      match SecondWord(call.content)
      case None => Failed
      case Some(count) => Post(WeeklyCard(call.title, count, call.htmlFile.value))
    else if !call.isDailyReport then
      var f := ParseUpdate(call.content, now);
      Post(UpdateCard(call.title, f.itemTitle, f.itemLink, f.pushTime))
    else SkipDailyReport
  }

  /** The Discord call `push_message` makes: no report flags, no HTML file. */
  function NotificationCall(push: map<string, map<string, string>>, title: string, content: string, isStartup: bool): DiscordCall {
    var webhook := if "discard" in push then Get(push["discard"], "webhook") else None;
    DiscordCall(webhook, title, content, false, false, None, isStartup)
  }

  /** The text of the weekly report notification for a total of `count` records. */
  function WeeklyContent(count: string): string {
    "共收集到 " + count + " 条数据泄露相关信息"
  }

  /** One call of the Discord sender: its plan, then, only if a card is POSTed, the retry
      loop over the given network outcomes. */
  method SendDiscardMsg(call: DiscordCall, push: map<string, map<string, string>>, now: string,
                        responses: seq<Response>, jitter: seq<real>)
    returns (plan: Plan, delivery: Option<Delivery>)
    requires MaxRetries <= |responses| && MaxRetries <= |jitter|
    ensures plan == PlanDiscord(call, push, now)
    ensures delivery.Some? <==> plan.Post?
    ensures delivery.Some? ==> delivery.value == RetryFrom(responses, jitter, 0)
  {
    plan := PlanDiscord(call, push, now);
    if plan.Post? {
      var d := SendWithRetry(responses, jitter);
      delivery := Some(d);
    } else {
      delivery := None;
    }
  }

  // ---------------------------------------------------------------------------------------
  // Properties

  /** The update text built by ingestion is read back field for field, provided no field
      contains a line break or its own prefix. */
  lemma ParseUpdateInvertsBody(title: string, link: string, time: string, now: string)
    requires '\n' !in title && '\n' !in link && '\n' !in time
    requires !Contains(title, Ingest.TitlePrefix) && !Contains(link, Ingest.LinkPrefix)
    requires !Contains(time, Ingest.TimePrefix)
    ensures ParseUpdate(Ingest.UpdateBody(title, link, time), now) == UpdateFields(title, link, time)
  {
    var l1, l2, l3 := Ingest.TitlePrefix + title, Ingest.LinkPrefix + link, Ingest.TimePrefix + time;
    assert '\n' !in Ingest.TitlePrefix && '\n' !in Ingest.LinkPrefix && '\n' !in Ingest.TimePrefix;
    assert Ingest.UpdateBody(title, link, time) == l1 + ['\n'] + (l2 + ['\n'] + l3);
    SplitAtSeparator(l1, '\n', l2 + ['\n'] + l3);
    SplitAtSeparator(l2, '\n', l3);
    SplitWithoutSeparator(l3, '\n');
    RemoveAllLeading(Ingest.TitlePrefix, title);
    RemoveAllLeading(Ingest.LinkPrefix, link);
    RemoveAllLeading(Ingest.TimePrefix, time);
  }

  /** A line break in the item title shifts the lines: the card shows the title cut at the
      break as the title and the title's second half as the link. */
  lemma LineBreakInTitleShiftsFields(a: string, b: string, link: string, time: string, now: string)
    requires '\n' !in a && '\n' !in b
    requires !Contains(a, Ingest.TitlePrefix) && !Contains(b, Ingest.LinkPrefix)
    ensures var f := ParseUpdate(Ingest.UpdateBody(a + "\n" + b, link, time), now);
      f.itemTitle == a && f.itemLink == b
  {
    var l1 := Ingest.TitlePrefix + a;
    var rest := Ingest.LinkPrefix + link + "\n" + Ingest.TimePrefix + time;
    assert '\n' !in Ingest.TitlePrefix;
    assert '\n' !in l1;
    assert Ingest.UpdateBody(a + "\n" + b, link, time) == l1 + ['\n'] + (b + ['\n'] + rest);
    SplitAtSeparator(l1, '\n', b + ['\n'] + rest);
    SplitAtSeparator(b, '\n', rest);
    RemoveAllLeading(Ingest.TitlePrefix, a);
    RemoveAllAbsent(b, Ingest.LinkPrefix);
  }

  /** A notification announced by ingestion reaches Discord as an update card carrying the
      item's own title, link and push time, when Discord is switched on for notifications
      and its webhook is usable. */
  lemma UpdatePushReachesDiscord(push: map<string, map<string, string>>, p: Ingest.Push, now: string)
    requires Discord in PushTargets(push)
    requires var w := NotificationCall(push, "", "", false).webhook;
      Configured(w) && StartsWith(w.value, "http")
    requires '\n' !in p.itemTitle && '\n' !in p.itemLink && '\n' !in p.pushTime
    requires !Contains(p.itemTitle, Ingest.TitlePrefix) && !Contains(p.itemLink, Ingest.LinkPrefix)
    requires !Contains(p.pushTime, Ingest.TimePrefix)
    ensures PlanDiscord(NotificationCall(push, p.Title(), p.Body(), false), push, now)
         == Post(UpdateCard(p.Title(), p.itemTitle, p.itemLink, p.pushTime))
  {
    ParseUpdateInvertsBody(p.itemTitle, p.itemLink, p.pushTime, now);
  }

  /** The startup notice, with a usable webhook, POSTs the startup card: the notice's title
      and text, and the channels switched on. */
  lemma StartupPostsCard(push: map<string, map<string, string>>, title: string, content: string, now: string)
    requires var w := NotificationCall(push, title, content, true).webhook;
      Configured(w) && StartsWith(w.value, "http")
    ensures PlanDiscord(NotificationCall(push, title, content, true), push, now)
         == Post(StartupCard(title, content, ChannelsField(push)))
  {
  }

  /** The daily report is stored but never POSTed to Discord, whatever the configuration. */
  lemma DailyReportNeverPosted(push: map<string, map<string, string>>, webhook: Option<string>,
                               title: string, content: string, htmlFile: Option<string>, now: string)
    ensures !PlanDiscord(DiscordCall(webhook, title, content, true, false, htmlFile, false), push, now).Post?
  {
  }

  /** In a text of a word, a space, a word, a space and anything, the second word is the
      one in the middle. */
  lemma {:induction false} SecondWordBetweenSpaces(head: string, word: string, tail: string)
    requires IsWord(head)
    requires IsWord(word)
    ensures SecondWord(head + " " + word + " " + tail) == Some(word)
  {
    var afterWord := " " + tail;
    var afterHead := [' '] + (word + afterWord);
    Regroup(head, word, tail);
    WordsCons(head, afterHead);
    WordsSkipSpace(' ', word + afterWord);
    WordsCons(word, afterWord);
  }

  lemma Regroup(head: string, word: string, tail: string)
    ensures head + " " + word + " " + tail == head + ([' '] + (word + (" " + tail)))
  {
  }

  /** The second word of the weekly text is the count it was built with. */
  lemma WeeklyCountRecovered(count: string)
    requires IsWord(count)
    ensures SecondWord(WeeklyContent(count)) == Some(count)
  {
    var head, tail := "共收集到", "条数据泄露相关信息";
    assert IsWord(head);
    assert WeeklyContent(count) == head + " " + count + " " + tail;
    SecondWordBetweenSpaces(head, count, tail);
  }

  /** The weekly card shows the count the report text was built with. */
  lemma WeeklyCardCarriesCount(webhook: string, title: string, count: string, htmlFile: string,
                               push: map<string, map<string, string>>, now: string)
    requires Configured(Some(webhook)) && StartsWith(webhook, "http") && htmlFile != ""
    requires IsWord(count)
    ensures PlanDiscord(DiscordCall(Some(webhook), title, WeeklyContent(count), false, true, Some(htmlFile), false), push, now)
         == Post(WeeklyCard(title, count, htmlFile))
  {
    WeeklyCountRecovered(count);
  }

  /** The weekly notification with a usable webhook and a report file fails before any
      POST exactly when its text has fewer than two words, and otherwise shows the second
      word as the count. */
  lemma ShortWeeklyTextFails(webhook: string, title: string, content: string, htmlFile: string,
                             push: map<string, map<string, string>>, now: string)
    requires Configured(Some(webhook)) && StartsWith(webhook, "http") && htmlFile != ""
    ensures var plan := PlanDiscord(DiscordCall(Some(webhook), title, content, false, true, Some(htmlFile), false), push, now);
      && (plan == Failed <==> |Words(content)| < 2)
      && (|Words(content)| >= 2 ==> plan == Post(WeeklyCard(title, Words(content)[1], htmlFile)))
  {
  }
}
