/** The tracker's small configuration rules: the night-sleep window, the proxy settings
    handed to `requests`, which data sources are polled, and the "source" a stored item is
    counted under in the statistics.

    Configuration sections are maps from key to value. The values of the `datasources`
    section are modelled as the integers they compare equal to in Python (`False` as 0,
    `True` as 1; any other value behaves like an integer other than 0 and 1). */
module Schedule {
  import opened Basics

  // ---------------------------------------------------------------------------------------
  // Night sleep

  const BeijingOffset: nat := 8
  /** Beijing hours below this are quiet hours. */
  const WakeHour: nat := 7

  /** The night-sleep switch: the `NIGHT_SLEEP_SWITCH` environment variable when it is set,
      else the `switch` key of the `night_sleep` section, else "ON". */
  function SleepSwitch(env: Option<string>, config: map<string, map<string, string>>): (r: string)
    ensures env.Some? ==> r == env.value
    ensures env.None? && "night_sleep" in config && "switch" in config["night_sleep"] ==> r == config["night_sleep"]["switch"]
    ensures env.None? && ("night_sleep" !in config || "switch" !in config["night_sleep"]) ==> r == "ON"
  {
    match env
    case Some(v) => v
    case None => Get(Get(config, "night_sleep").GetOr(map[]), "switch").GetOr("ON")
  }

  /** The UTC hour moved to Beijing time, wrapped into a day. */
  function BeijingHour(utcHour: nat): (h: nat)
    requires utcHour < 24
    ensures h < 24 && h == (utcHour + BeijingOffset) % 24
  {
    var h := utcHour + BeijingOffset;
    if h >= 24 then h - 24 else h
  }

  /** `should_sleep`: the switch is exactly "ON" and it is before 07:00 in Beijing. */
  function ShouldSleep(switch: string, utcHour: nat): (r: bool)
    requires utcHour < 24
    ensures r <==> switch == "ON" && 16 <= utcHour <= 22
  {
    if switch != "ON" then false
    else BeijingHour(utcHour) < WakeHour
  }

  /** With the switch on, the quiet hours are the seven Beijing hours 00:00 to 06:59. */
  lemma QuietHoursAreSeven(utcHour: nat)
    requires utcHour < 24
    ensures ShouldSleep("ON", utcHour) <==> BeijingHour(utcHour) < 7
    ensures ShouldSleep("ON", utcHour) <==> (utcHour + 8) % 24 in {0, 1, 2, 3, 4, 5, 6}
  {
  }

  // ---------------------------------------------------------------------------------------
  // Proxies

  /** The key is present with a non-empty value (Python truthiness of a string). */
  predicate Truthy(section: map<string, string>, key: string) {
    key in section && section[key] != ""
  }

  /** `get_proxies` for the configuration's `proxy` section: `None` when proxying is off
      (`enable` missing counts as "OFF") or neither proxy address is set, otherwise a map
      with an `http` and/or `https` entry copied from the set addresses. */
  method GetProxies(proxy: map<string, string>) returns (r: Option<map<string, string>>)
    ensures r.None? <==> Get(proxy, "enable").GetOr("OFF") == "OFF" || (!Truthy(proxy, "http_proxy") && !Truthy(proxy, "https_proxy"))
    ensures r.Some? ==> r.value.Keys <= {"http", "https"}
    ensures r.Some? ==> ("http" in r.value <==> Truthy(proxy, "http_proxy"))
    ensures r.Some? ==> ("https" in r.value <==> Truthy(proxy, "https_proxy"))
    ensures r.Some? && "http" in r.value ==> r.value["http"] == proxy["http_proxy"]
    ensures r.Some? && "https" in r.value ==> r.value["https"] == proxy["https_proxy"]
  {
    if Get(proxy, "enable").GetOr("OFF") == "OFF" {
      return None;
    }
    var proxies: map<string, string> := map[];
    if Truthy(proxy, "http_proxy") {
      proxies := proxies["http" := proxy["http_proxy"]];
    }
    if Truthy(proxy, "https_proxy") {
      proxies := proxies["https" := proxy["https_proxy"]];
    }
    assert "http" in proxies <==> Truthy(proxy, "http_proxy");
    assert "https" in proxies <==> Truthy(proxy, "https_proxy");
    if proxies == map[] {
      return None;
    }
    return Some(proxies);
  }

  // ---------------------------------------------------------------------------------------
  // Data sources

  /** `datasources_config.get(website, 1) == 0`: only an explicit 0 switches a site off. */
  predicate Disabled(datasources: map<string, int>, site: string) {
    Get(datasources, site).GetOr(1) == 0
  }

  /** Where a polling pass got to: the sites handed to `check_for_updates`, in order, and
      whether the loop ran to its end. `raises(site)` says whether `check_for_updates` raised
      for that site in this pass. Nothing inside the loop catches that exception, so it
      leaves the loop and ends the pass. */
  datatype Pass = Pass(polled: seq<string>, completed: bool)

  /** The polling pass over the feed list: disabled sites are skipped, the others polled in
      order, and the pass stops at the first site whose poll raises. */
  function PollPass(sites: seq<string>, datasources: map<string, int>, raises: string -> bool): Pass {
    if sites == [] then Pass([], true)
    else
      var p := PollPass(sites[..|sites| - 1], datasources, raises);
      var site := sites[|sites| - 1];
      if !p.completed || Disabled(datasources, site) then p
      else Pass(p.polled + [site], !raises(site))
  }

  /** The polling loop, which leaves at the first site whose poll raises. */
  method PollSites(sites: seq<string>, datasources: map<string, int>, raises: string -> bool)
    returns (polled: seq<string>, completed: bool)
    ensures Pass(polled, completed) == PollPass(sites, datasources, raises)
  {
    polled, completed := [], true;
    for i := 0 to |sites|
      invariant completed && Pass(polled, completed) == PollPass(sites[..i], datasources, raises)
    {
      assert sites[..i + 1][..i] == sites[..i];
      if Disabled(datasources, sites[i]) {
        continue;
      }
      polled := polled + [sites[i]];
      if raises(sites[i]) {
        completed := false;
        PassStops(sites, datasources, raises, i + 1);
        return;
      }
    }
    assert sites[..|sites|] == sites;
  }

  /** Once a pass has stopped, the rest of the feed list changes nothing. */
  lemma {:induction false} PassStops(sites: seq<string>, datasources: map<string, int>, raises: string -> bool, i: nat)
    requires i <= |sites| && !PollPass(sites[..i], datasources, raises).completed
    ensures PollPass(sites, datasources, raises) == PollPass(sites[..i], datasources, raises)
    decreases |sites|
  {
    if i == |sites| {
      assert sites[..i] == sites;
    } else {
      var init := sites[..|sites| - 1];
      assert init[..i] == sites[..i];
      PassStops(init, datasources, raises, i);
    }
  }

  /** No site before position `k` stopped the pass: each was skipped or polled without
      raising. */
  predicate Reached(sites: seq<string>, datasources: map<string, int>, raises: string -> bool, k: nat)
    requires k <= |sites|
  {
    forall j :: 0 <= j < k ==> Disabled(datasources, sites[j]) || !raises(sites[j])
  }

  lemma ReachedPrefix(sites: seq<string>, datasources: map<string, int>, raises: string -> bool, i: nat, k: nat)
    requires k <= i <= |sites|
    ensures Reached(sites, datasources, raises, k) <==> Reached(sites[..i], datasources, raises, k)
  {
    assert forall j :: 0 <= j < k ==> sites[..i][j] == sites[j];
  }

  /** The pass runs to the end of the feed list exactly when no polled site raises. */
  lemma {:induction false} CompletedIffReached(sites: seq<string>, datasources: map<string, int>, raises: string -> bool)
    ensures PollPass(sites, datasources, raises).completed <==> Reached(sites, datasources, raises, |sites|)
    decreases |sites|
  {
    if sites != [] {
      var n := |sites| - 1;
      var init := sites[..n];
      CompletedIffReached(init, datasources, raises);
      ReachedPrefix(sites, datasources, raises, n, n);
      if Reached(sites, datasources, raises, n) && (Disabled(datasources, sites[n]) || !raises(sites[n])) {
        assert Reached(sites, datasources, raises, n + 1);
      }
    }
  }

  /** Site `site` sits at position `k`, is not switched off, and the pass gets to it. */
  predicate PolledAt(sites: seq<string>, datasources: map<string, int>, raises: string -> bool, site: string, k: nat) {
    k < |sites| && sites[k] == site && !Disabled(datasources, site) && Reached(sites, datasources, raises, k)
  }

  /** A site is polled exactly when it is in the feed list, is not switched off, and no
      site before it stopped the pass. */
  lemma {:induction false} PolledMembers(sites: seq<string>, datasources: map<string, int>, raises: string -> bool, site: string)
    ensures site in PollPass(sites, datasources, raises).polled <==>
      exists k :: PolledAt(sites, datasources, raises, site, k)
    decreases |sites|
  {
    if sites != [] {
      var n := |sites| - 1;
      var init := sites[..n];
      var p := PollPass(init, datasources, raises);
      var q := PollPass(sites, datasources, raises);
      assert forall x :: x in p.polled ==> x in q.polled;
      PolledMembers(init, datasources, raises, site);
      CompletedIffReached(init, datasources, raises);
      ReachedPrefix(sites, datasources, raises, n, n);
      if site in q.polled {
        if site in p.polled {
          var k: nat :| PolledAt(init, datasources, raises, site, k);
          ReachedPrefix(sites, datasources, raises, n, k);
          assert PolledAt(sites, datasources, raises, site, k);
        } else {
          assert PolledAt(sites, datasources, raises, site, n);
        }
      }
      if exists k :: PolledAt(sites, datasources, raises, site, k) {
        var k: nat :| PolledAt(sites, datasources, raises, site, k);
        if k < n {
          ReachedPrefix(sites, datasources, raises, n, k);
          assert PolledAt(init, datasources, raises, site, k);
        }
      }
    }
  }

  /** When no polled site raises, exactly the listed sites that are not switched off are
      polled; a site the `datasources` section does not mention is among them. */
  lemma CompletePassPollsEnabled(sites: seq<string>, datasources: map<string, int>, raises: string -> bool, site: string)
    requires PollPass(sites, datasources, raises).completed
    ensures site in PollPass(sites, datasources, raises).polled <==> site in sites && !Disabled(datasources, site)
    ensures site in sites && site !in datasources ==> site in PollPass(sites, datasources, raises).polled
  {
    CompletedIffReached(sites, datasources, raises);
    PolledMembers(sites, datasources, raises, site);
    if site in sites && !Disabled(datasources, site) {
      var k :| 0 <= k < |sites| && sites[k] == site;
      assert PolledAt(sites, datasources, raises, site, k);
    }
  }

  /** A poll that raises ends the pass: a later site is not polled, even an enabled one. */
  lemma EarlierRaiseSkipsSite()
    ensures PollPass(["A", "B"], map[], s => s == "A") == Pass(["A"], false)
  {
    assert ["A", "B"][..1] == ["A"];
    assert ["A"][..0] == [];
  }

  /** The sites announced at startup as monitored: those whose entry is 1. */
  function Listed(datasources: map<string, int>): set<string> {
    set site | site in datasources && datasources[site] == 1
  }

  /** An announced site in the feed list is polled once the pass gets to it. */
  lemma ListedArePolled(sites: seq<string>, datasources: map<string, int>, raises: string -> bool, site: string, k: nat)
    requires site in Listed(datasources) && k < |sites| && sites[k] == site
    requires Reached(sites, datasources, raises, k)
    ensures site in PollPass(sites, datasources, raises).polled
  {
    PolledMembers(sites, datasources, raises, site);
    assert PolledAt(sites, datasources, raises, site, k);
  }

  /** The converse fails: a site missing from the `datasources` section is polled but not
      announced. */
  lemma UnlistedSiteIsPolled(raises: string -> bool)
    ensures "x" in PollPass(["x"], map[], raises).polled && "x" !in Listed(map[])
  {
    assert ["x"][..0] == [];
  }

  // ---------------------------------------------------------------------------------------
  // Source key of the statistics

  /** SQLite `INSTR(s, c)`: the 1-based position of the first `c`, or 0. */
  function Instr(s: string, c: char): (r: nat)
    ensures r <= |s|
    ensures r == 0 <==> c !in s
    ensures r > 0 ==> s[r - 1] == c && c !in s[..r - 1]
  {
    if s == [] then 0
    else if s[0] == c then 1
    else
      var k := Instr(s[1..], c);
      if k == 0 then 0
      else
        assert s[..k] == [s[0]] + s[1..][..k - 1];
        k + 1
  }

  /** SQLite `SUBSTR(s, start, length)` for `start >= 1`. */
  function Substr(s: string, start: nat, length: nat): string
    requires start >= 1
  {
    if start - 1 >= |s| then ""
    else if start - 1 + length >= |s| then s[start - 1..]
    else s[start - 1..start - 1 + length]
  }

  /** `SUBSTR(title, 1, INSTR(title || ' ', ' ') - 1)`: what the statistics group by. */
  function SqlSourceKey(title: string): (key: string)
    ensures StartsWith(title, key) && ' ' !in key
    ensures key == title || title[|key|] == ' '
  {
    var n := Instr(title + " ", ' ');
    assert n >= 1 && (title + " ")[..n - 1] == title[..n - 1] by {
      assert (title + " ")[|title|] == ' ';
    }
    Substr(title, 1, n - 1)
  }

  /** The report's label for a group: `source.split(' ')[0] if source else '未知'`. */
  function ReportLabel(title: string): string {
    if title == "" then "未知" else Split(title, ' ')[0]
  }

  /** The first piece of a split is everything up to the first separator. */
  lemma {:induction false} SplitFirstPiece(s: string, c: char)
    ensures var p := Split(s, c)[0];
      StartsWith(s, p) && c !in p && (p == s || s[|p|] == c)
  {
    if s != [] && s[0] != c {
      SplitFirstPiece(s[1..], c);
      var q := Split(s[1..], c)[0];
      assert Split(s, c)[0] == [s[0]] + q;
      assert s[..|q| + 1] == [s[0]] + s[1..][..|q|];
    }
  }

  /** A prefix of `s` without `c`, ending at `c` or at the end of `s`, is unique. */
  lemma PrefixUpToSeparator(s: string, c: char, p: string, q: string)
    requires StartsWith(s, p) && c !in p && (p == s || s[|p|] == c)
    requires StartsWith(s, q) && c !in q && (q == s || s[|q|] == c)
    ensures p == q
  {
  }

  /** The SQL grouping key and the first word the report shows are the same string: the
      title up to its first space, or the whole title. */
  lemma SourceKeyAgrees(title: string)
    ensures Split(title, ' ')[0] == SqlSourceKey(title)
  {
    SplitFirstPiece(title, ' ');
    PrefixUpToSeparator(title, ' ', Split(title, ' ')[0], SqlSourceKey(title));
  }

  /** Whichever row of a group SQLite reports, a stored (non-empty) title yields the group's
      own key as its label. */
  lemma ReportLabelIsGroupKey(t1: string, t2: string)
    requires t1 != "" && t2 != "" && SqlSourceKey(t1) == SqlSourceKey(t2)
    ensures ReportLabel(t1) == ReportLabel(t2) == SqlSourceKey(t1)
  {
    SourceKeyAgrees(t1);
    SourceKeyAgrees(t2);
  }
}
