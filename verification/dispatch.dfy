/**
 * The plugin endpoint's keyword dispatch: when a plugin connects, the user's stored links are
 * folded into a dict from keyword to link id; each recognised fragment is then logged and
 * scanned against that dict, and the first keyword found in it triggers one click.
 */
module Dispatch {
  import opened Wrappers
  import opened PyDict
  import opened Text
  import opened Schemas
  import opened Connections
  import opened ConfigStore

  /** `keyword_map`: keyword to link id, in first-insertion order. */
  type KeywordMap = Dict<string, int>

  /** The inner loop: `for k in keywords: keyword_map[k] = link_id`. */
  function AssignAll(d: KeywordMap, keywords: seq<string>, linkId: int): (r: KeywordMap)
    ensures |d| <= |r| <= |d| + |keywords|
  {
    if keywords == [] then d
    else Assign(AssignAll(d, keywords[..|keywords| - 1], linkId), keywords[|keywords| - 1], linkId)
  }

  /** The keyword map built from a user's links, processed in order. */
  function KeywordMapOf(configs: seq<LinkConfig>): (r: KeywordMap)
    ensures |r| <= |AllKeywords(configs)|
  {
    if configs == [] then []
    else
      var last := configs[|configs| - 1];
      AssignAll(KeywordMapOf(configs[..|configs| - 1]), last.keywords, last.id)
  }

  /** Every keyword of every link, in the order the building loops visit them. */
  function AllKeywords(configs: seq<LinkConfig>): seq<string>
  {
    if configs == [] then [] else AllKeywords(configs[..|configs| - 1]) + configs[|configs| - 1].keywords
  }

  /** The id of the last link that lists `k`, if any does. */
  function LastLinkWith(configs: seq<LinkConfig>, k: string): (r: Option<int>)
    ensures r.None? <==> forall i :: 0 <= i < |configs| ==> k !in configs[i].keywords
    ensures r.Some? ==> exists i :: 0 <= i < |configs| && LastListing(configs, k, i) && configs[i].id == r.value
  {
    if configs == [] then None
    else
      var init := configs[..|configs| - 1];
      var last := configs[|configs| - 1];
      if k in last.keywords then Some(last.id)
      else
        assert forall i :: 0 <= i < |init| ==> init[i] == configs[i];
        LastLinkWith(init, k)
  }

  /** Link `i` lists `k` and no later link does. */
  ghost predicate LastListing(configs: seq<LinkConfig>, k: string, i: int)
    requires 0 <= i < |configs|
  {
    k in configs[i].keywords && forall j :: i < j < |configs| ==> k !in configs[j].keywords
  }

  lemma {:induction false} AssignAllKeys(d: KeywordMap, keywords: seq<string>, linkId: int)
    requires WellFormed(d)
    ensures WellFormed(AssignAll(d, keywords, linkId))
    ensures Keys(AssignAll(d, keywords, linkId)) == FirstOccurrences(Keys(d), keywords)
  {
    if keywords != [] {
      var init := keywords[..|keywords| - 1];
      AssignAllKeys(d, init, linkId);
      AssignKeys(AssignAll(d, init, linkId), keywords[|keywords| - 1], linkId);
      AssignWellFormed(AssignAll(d, init, linkId), keywords[|keywords| - 1], linkId);
    }
  }

  lemma {:induction false} AssignAllLookup(d: KeywordMap, keywords: seq<string>, linkId: int, k: string)
    ensures Lookup(AssignAll(d, keywords, linkId), k) == if k in keywords then Some(linkId) else Lookup(d, k)
  {
    if keywords != [] {
      var init := keywords[..|keywords| - 1];
      AssignAllLookup(d, init, linkId, k);
      AssignLookup(AssignAll(d, init, linkId), keywords[|keywords| - 1], linkId, k);
      assert keywords == init + [keywords[|keywords| - 1]];
    }
  }

  /**
   * The keys of the map are the configured keywords without repetition, in the order in which
   * the loops first meet them.
   */
  lemma {:induction false} KeywordMapKeys(configs: seq<LinkConfig>)
    ensures WellFormed(KeywordMapOf(configs))
    ensures Keys(KeywordMapOf(configs)) == FirstOccurrences([], AllKeywords(configs))
  {
    if configs != [] {
      var init := configs[..|configs| - 1];
      var last := configs[|configs| - 1];
      KeywordMapKeys(init);
      AssignAllKeys(KeywordMapOf(init), last.keywords, last.id);
      FirstOccurrencesAppend([], AllKeywords(init), last.keywords);
    }
  }

  /** A keyword listed by several links dispatches to the last of them. */
  lemma {:induction false} KeywordMapLastWins(configs: seq<LinkConfig>, k: string)
    ensures Lookup(KeywordMapOf(configs), k) == LastLinkWith(configs, k)
  {
    if configs != [] {
      var init := configs[..|configs| - 1];
      var last := configs[|configs| - 1];
      KeywordMapLastWins(init, k);
      AssignAllLookup(KeywordMapOf(init), last.keywords, last.id, k);
    }
  }

  /** The two nested loops that fill `keyword_map`. */
  method BuildKeywordMap(configs: seq<LinkConfig>) returns (keywordMap: KeywordMap)
    ensures keywordMap == KeywordMapOf(configs)
  {
    keywordMap := [];
    var i := 0;
    while i < |configs|
      invariant 0 <= i <= |configs|
      invariant keywordMap == KeywordMapOf(configs[..i])
    {
      var c := configs[i];
      var j := 0;
      while j < |c.keywords|
        invariant 0 <= j <= |c.keywords|
        invariant keywordMap == AssignAll(KeywordMapOf(configs[..i]), c.keywords[..j], c.id)
      {
        keywordMap := Assign(keywordMap, c.keywords[j], c.id);
        assert c.keywords[..j + 1][..j] == c.keywords[..j];
        j := j + 1;
      }
      assert c.keywords[..j] == c.keywords;
      assert configs[..i + 1][..i] == configs[..i];
      i := i + 1;
    }
    assert configs[..i] == configs;
  }

  /** Entry `i` is the first, in map order, whose keyword occurs in the text. */
  ghost predicate FirstMatchAt(keywordMap: KeywordMap, text: string, i: int) {
    && 0 <= i < |keywordMap|
    && IsSubstring(keywordMap[i].0, text)
    && forall j :: 0 <= j < i ==> !IsSubstring(keywordMap[j].0, text)
  }

  /** Index of the first entry, in map order, whose keyword occurs in the text. */
  function FirstMatch(keywordMap: KeywordMap, text: string): (r: Option<nat>)
    ensures r.None? <==> forall i :: 0 <= i < |keywordMap| ==> !IsSubstring(keywordMap[i].0, text)
    ensures r.Some? ==> FirstMatchAt(keywordMap, text, r.value)
  {
    if keywordMap == [] then None
    else if IsSubstring(keywordMap[0].0, text) then Some(0)
    else
      assert forall i :: 0 <= i < |keywordMap[1..]| ==> keywordMap[1..][i] == keywordMap[i + 1];
      match FirstMatch(keywordMap[1..], text)
      case None => None
      case Some(i) => Some(i + 1)
  }

  /** What handling one fragment sends, broadcasts and persists, in order. */
  datatype Effect =
    | InfoLog(text: string)                    // broadcast `识别: {text}` to the admin consoles
    | Click(linkId: int)                       // `{"action": "click", "link_id": ...}` to the plugin
    | SuccessLog(keyword: string, linkId: int) // broadcast `触发: ...` to the admin consoles
    | Persist(row: LogRow)                     // add and commit a `logs` row

  function ClickEffects(userId: int, keyword: string, linkId: int, text: string): seq<Effect> {
    [Click(linkId), SuccessLog(keyword, linkId), Persist(LogRow(userId, Success, keyword, linkId, text))]
  }

  /**
   * The effects of one recognised fragment: nothing for empty text; otherwise one info log
   * and, when some keyword occurs in the text, one click for the first such keyword in map
   * order, followed by its success log and its persisted row.
   */
  function FragmentEffects(userId: int, keywordMap: KeywordMap, text: string): (e: seq<Effect>)
    ensures text == [] ==> e == []
    ensures text != [] ==> |e| >= 1 && e[0] == InfoLog(text)
    ensures forall i :: 0 <= i < |e| && i != 1 ==> !e[i].Click?
    ensures |e| > 1 <==> text != [] && exists i :: 0 <= i < |keywordMap| && IsSubstring(keywordMap[i].0, text)
    ensures |e| > 1 ==> |e| == 4 && exists i :: (
      && FirstMatchAt(keywordMap, text, i)
      && e[1] == Click(keywordMap[i].1)
      && e[2] == SuccessLog(keywordMap[i].0, keywordMap[i].1)
      && e[3] == Persist(LogRow(userId, Success, keywordMap[i].0, keywordMap[i].1, text)))
  {
    if text == [] then []
    else
      match FirstMatch(keywordMap, text)
      case None => [InfoLog(text)]
      case Some(i) => [InfoLog(text)] + ClickEffects(userId, keywordMap[i].0, keywordMap[i].1, text)
  }

  /** The body of the FunASR receive loop for one message with non-missing `text`. */
  method ProcessFragment(userId: int, keywordMap: KeywordMap, text: string) returns (effects: seq<Effect>)
    ensures effects == FragmentEffects(userId, keywordMap, text)
  {
    effects := [];
    if text != [] {
      effects := effects + [InfoLog(text)];
      var i := 0;
      while i < |keywordMap|
        invariant 0 <= i <= |keywordMap|
        invariant forall j :: 0 <= j < i ==> !IsSubstring(keywordMap[j].0, text)
        invariant effects == [InfoLog(text)]
      {
        var (keyword, linkId) := keywordMap[i];
        if IsSubstring(keyword, text) {
          effects := effects + [Click(linkId)];
          effects := effects + [SuccessLog(keyword, linkId)];
          effects := effects + [Persist(LogRow(userId, Success, keyword, linkId, text))];
          break;
        }
        i := i + 1;
      }
    }
  }

  /** A click always goes to the last link listing some keyword that occurs in the fragment. */
  lemma ClickTarget(userId: int, configs: seq<LinkConfig>, text: string, linkId: int)
    requires Click(linkId) in FragmentEffects(userId, KeywordMapOf(configs), text)
    ensures exists k :: IsSubstring(k, text) && LastLinkWith(configs, k) == Some(linkId)
  {
    var km := KeywordMapOf(configs);
    var e := FragmentEffects(userId, km, text);
    assert |e| > 1;
    var i :| FirstMatchAt(km, text, i) && e[1] == Click(km[i].1);
    KeywordMapKeys(configs);
    LookupItem(km, i);
    KeywordMapLastWins(configs, km[i].0);
  }

  /** A non-empty fragment containing any configured keyword triggers a click. */
  lemma ConfiguredKeywordClicks(userId: int, configs: seq<LinkConfig>, text: string, c: int, k: string)
    requires text != [] && 0 <= c < |configs| && k in configs[c].keywords && IsSubstring(k, text)
    ensures exists linkId :: Click(linkId) in FragmentEffects(userId, KeywordMapOf(configs), text)
  {
    var km := KeywordMapOf(configs);
    KeywordMapLastWins(configs, k);
    assert k in Keys(km);
    var i :| 0 <= i < |km| && Keys(km)[i] == k;
    assert IsSubstring(km[i].0, text);
    var e := FragmentEffects(userId, km, text);
    assert e[1].Click? && e[1] in e;
  }

  /** Matching is case-sensitive: "buy now" does not match "please Buy Now please". */
  lemma CaseSensitiveMatch(userId: int)
    ensures FragmentEffects(userId, KeywordMapOf([LinkConfig(1, ["buy now"])]), "please Buy Now please")
      == [InfoLog("please Buy Now please")]
  {
    var configs := [LinkConfig(1, ["buy now"])];
    SingleLinkMap(1, "buy now");
    AbsentFirstChar("buy now", "please Buy Now please");
    assert FirstMatch([("buy now", 1)], "please Buy Now please") == None;
  }

  lemma SingleLinkMap(id: int, k: string)
    ensures KeywordMapOf([LinkConfig(id, [k])]) == [(k, id)]
  {
    var configs := [LinkConfig(id, [k])];
    assert configs[..0] == [];
    assert [k][..0] == [];
    assert AssignAll([], [k], id) == Assign([], k, id);
  }

  /** Two links sharing a keyword: the map holds it once, and it dispatches to the later link. */
  lemma SharedKeywordLastLinkWins(userId: int)
    ensures KeywordMapOf([LinkConfig(1, ["hi"]), LinkConfig(2, ["hi"])]) == [("hi", 2)]
    ensures FragmentEffects(userId, [("hi", 2)], "hi there")
      == [InfoLog("hi there")] + ClickEffects(userId, "hi", 2, "hi there")
  {
    var configs := [LinkConfig(1, ["hi"]), LinkConfig(2, ["hi"])];
    assert configs[..1] == [LinkConfig(1, ["hi"])];
    SingleLinkMap(1, "hi");
    assert ["hi"][..0] == [];
    assert KeywordMapOf(configs) == AssignAll([("hi", 1)], ["hi"], 2) == Assign([("hi", 1)], "hi", 2);
    assert OccursAt("hi", "hi there", 0);
    assert FirstMatch([("hi", 2)], "hi there") == Some(0);
  }

  /**
   * Opening `/ws/plugin/{user_id}`: an unknown user is closed (code 4001) before anything is
   * registered; otherwise the socket joins the user's plugin connections and the keyword map
   * is built from the user's stored links at that moment.
   */
  method OpenPluginChannel(manager: ConnectionManager, store: Store, users: set<int>, userId: int, socket: SocketId)
    returns (keywordMap: Option<KeywordMap>)
    requires manager.Valid()
    modifies manager`pluginConnections
    ensures manager.Valid()
    ensures userId !in users ==> keywordMap == None && manager.pluginConnections == old(manager.pluginConnections)
    ensures userId in users ==> keywordMap == Some(KeywordMapOf(store.GetConfig(userId)))
    ensures userId in users ==> manager.pluginConnections == Attach(old(manager.pluginConnections), userId, socket)
  {
    if userId !in users {
      return None;
    }
    manager.ConnectPlugin(socket, userId);
    var km := BuildKeywordMap(ConfigsOf(store.configs, userId));
    keywordMap := Some(km);
  }
}
