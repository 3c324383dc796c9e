/**
 * The console's link editor: the handlers that turn the current list of links into the next
 * one when the operator adds or removes a keyword or a link.
 */
module LinkEditor {
  import opened Schemas
  import opened Sequences
  import opened Text

  /** `DEFAULT_CONFIG`: five links with ids 1 to 5 and no keywords. */
  function DefaultConfig(): (r: seq<LinkConfig>)
    ensures |r| == 5
    ensures forall i :: 0 <= i < |r| ==> r[i].id == i + 1 && r[i].keywords == []
  {
    seq(5, i => LinkConfig(i + 1, []))
  }

  /** No two links share an id. */
  ghost predicate UniqueIds(configs: seq<LinkConfig>) {
    forall i, j :: 0 <= i < j < |configs| ==> configs[i].id != configs[j].id
  }

  /** A link's keywords are distinct, non-empty and already trimmed. */
  ghost predicate CleanKeywords(c: LinkConfig) {
    Distinct(c.keywords) && forall k :: k in c.keywords ==> k != [] && Trim(k) == k
  }

  /** What the editor keeps true of the list it shows and saves. */
  ghost predicate EditorInvariant(configs: seq<LinkConfig>) {
    UniqueIds(configs) && forall c :: c in configs ==> CleanKeywords(c)
  }

  lemma DefaultConfigInvariant()
    ensures EditorInvariant(DefaultConfig())
  {
  }

  /** The link with `t` among its keywords, appended unless already present. */
  function WithKeyword(c: LinkConfig, t: string): LinkConfig {
    if t in c.keywords then c else c.(keywords := c.keywords + [t])
  }

  /**
   * `handleAddKeyword(id, keyword)`: a blank keyword changes nothing; otherwise the trimmed
   * keyword is appended to every link with that id that does not already list it.
   */
  function AddKeyword(configs: seq<LinkConfig>, id: int, keyword: string): (r: seq<LinkConfig>)
    ensures Trim(keyword) == [] ==> r == configs
    ensures |r| == |configs|
    ensures forall i :: 0 <= i < |r| ==> r[i].id == configs[i].id
    ensures forall i :: 0 <= i < |r| && configs[i].id != id ==> r[i] == configs[i]
    ensures forall i :: 0 <= i < |r| && configs[i].id == id && Trim(keyword) != [] ==>
      && Trim(keyword) in r[i].keywords
      && (Trim(keyword) in configs[i].keywords ==> r[i] == configs[i])
      && (Trim(keyword) !in configs[i].keywords ==> r[i].keywords == configs[i].keywords + [Trim(keyword)])
  {
    var t := Trim(keyword);
    if t == [] then configs
    else
      seq(|configs|, i requires 0 <= i < |configs| =>
        if configs[i].id == id then WithKeyword(configs[i], t) else configs[i])
  }

  lemma AddKeywordKeepsInvariant(configs: seq<LinkConfig>, id: int, keyword: string)
    requires EditorInvariant(configs)
    ensures EditorInvariant(AddKeyword(configs, id, keyword))
  {
    var t := Trim(keyword);
    var r := AddKeyword(configs, id, keyword);
    if t != [] {
      TrimIdempotent(keyword);
      forall c | c in r ensures CleanKeywords(c) {
        var i :| 0 <= i < |r| && r[i] == c;
        var ks := configs[i].keywords;
        assert CleanKeywords(configs[i]) by { assert configs[i] in configs; }
        if configs[i].id == id && t !in ks {
          forall a, b | 0 <= a < b < |ks + [t]| ensures (ks + [t])[a] != (ks + [t])[b] {
            if b == |ks| {
              assert (ks + [t])[a] == ks[a] && ks[a] in ks;
            }
          }
        }
      }
    }
  }

  /** `handleRemoveKeyword(id, keyword)`: every occurrence of the keyword leaves the links with that id. */
  function RemoveKeyword(configs: seq<LinkConfig>, id: int, keyword: string): (r: seq<LinkConfig>)
    ensures |r| == |configs|
    ensures forall i :: 0 <= i < |r| ==> r[i].id == configs[i].id
    ensures forall i :: 0 <= i < |r| && configs[i].id != id ==> r[i] == configs[i]
    ensures forall i :: 0 <= i < |r| && configs[i].id == id ==>
      && keyword !in r[i].keywords
      && (forall k :: k != keyword ==> multiset(r[i].keywords)[k] == multiset(configs[i].keywords)[k])
      && IsSubsequence(r[i].keywords, configs[i].keywords)
  {
    var r := seq(|configs|, i requires 0 <= i < |configs| =>
      if configs[i].id == id then configs[i].(keywords := RemoveAll(configs[i].keywords, keyword)) else configs[i]);
    assert forall i :: 0 <= i < |r| && configs[i].id == id ==> IsSubsequence(r[i].keywords, configs[i].keywords) by {
      forall i | 0 <= i < |r| && configs[i].id == id
        ensures IsSubsequence(r[i].keywords, configs[i].keywords)
      {
        RemoveAllIsSubsequence(configs[i].keywords, keyword);
      }
    }
    r
  }

  lemma RemoveKeywordKeepsInvariant(configs: seq<LinkConfig>, id: int, keyword: string)
    requires EditorInvariant(configs)
    ensures EditorInvariant(RemoveKeyword(configs, id, keyword))
  {
    var r := RemoveKeyword(configs, id, keyword);
    forall c | c in r ensures CleanKeywords(c) {
      var i :| 0 <= i < |r| && r[i] == c;
      assert CleanKeywords(configs[i]) by { assert configs[i] in configs; }
      if configs[i].id == id {
        RemoveAllDistinct(configs[i].keywords, keyword);
      }
    }
  }

  /**
   * Adding a keyword and then removing it again restores the list, provided no link with
   * that id listed the keyword before.
   */
  lemma AddThenRemoveKeyword(configs: seq<LinkConfig>, id: int, keyword: string)
    requires Trim(keyword) != []
    requires forall i :: 0 <= i < |configs| && configs[i].id == id ==> Trim(keyword) !in configs[i].keywords
    ensures RemoveKeyword(AddKeyword(configs, id, keyword), id, Trim(keyword)) == configs
  {
    var t := Trim(keyword);
    var r := RemoveKeyword(AddKeyword(configs, id, keyword), id, t);
    forall i | 0 <= i < |configs| ensures r[i] == configs[i] {
      if configs[i].id == id {
        RemoveAllAppended(configs[i].keywords, t);
      }
    }
  }

  /** `Math.max(...configs.map((c) => c.id))` */
  function MaxId(configs: seq<LinkConfig>): (m: int)
    requires configs != []
    ensures forall c :: c in configs ==> c.id <= m
    ensures exists c :: c in configs && c.id == m
  {
    if |configs| == 1 then configs[0].id
    else
      var rest := MaxId(configs[1..]);
      assert forall c :: c in configs ==> c == configs[0] || c in configs[1..];
      if configs[0].id > rest then configs[0].id else rest
  }

  /** `handleAddLink()`: append a link without keywords whose id is one above the largest, or 1. */
  function AddLink(configs: seq<LinkConfig>): (r: seq<LinkConfig>)
    ensures |r| == |configs| + 1 && r[..|configs|] == configs
    ensures r[|configs|].keywords == []
    ensures forall c :: c in configs ==> c.id < r[|configs|].id
    ensures configs == [] ==> r[|configs|].id == 1
    ensures configs != [] ==> exists c :: c in configs && r[|configs|].id == c.id + 1
  {
    var newId := if |configs| > 0 then MaxId(configs) + 1 else 1;
    configs + [LinkConfig(newId, [])]
  }

  lemma AddLinkKeepsInvariant(configs: seq<LinkConfig>)
    requires EditorInvariant(configs)
    ensures EditorInvariant(AddLink(configs))
  {
    var r := AddLink(configs);
    forall i, j | 0 <= i < j < |r| ensures r[i].id != r[j].id {
      if j == |configs| {
        assert r[i] == configs[i] && configs[i] in configs;
      }
    }
  }

  /** `handleRemoveLink(id)`: drop every link with that id. */
  function RemoveLink(configs: seq<LinkConfig>, id: int): (r: seq<LinkConfig>)
    ensures forall c :: c in r <==> c in configs && c.id != id
    ensures forall c: LinkConfig :: c.id != id ==> multiset(r)[c] == multiset(configs)[c]
    ensures (forall c :: c in configs ==> c.id != id) ==> r == configs
  {
    if configs == [] then []
    else
      assert configs == [configs[0]] + configs[1..];
      (if configs[0].id != id then [configs[0]] else []) + RemoveLink(configs[1..], id)
  }

  /** The links RemoveLink keeps stay in their original order. */
  lemma {:induction false} RemoveLinkIsSubsequence(configs: seq<LinkConfig>, id: int)
    ensures IsSubsequence(RemoveLink(configs, id), configs)
  {
    if configs != [] {
      RemoveLinkIsSubsequence(configs[1..], id);
      var r := RemoveLink(configs[1..], id);
      if configs[0].id == id {
        assert RemoveLink(configs, id) == r;
        if r != [] {
          assert r[0] in r;
        }
      } else {
        assert ([configs[0]] + r)[1..] == r;
      }
    }
  }

  /** Putting a link in front of a list keeps ids unique when no link of the list shares its id. */
  lemma PrependUniqueIds(c: LinkConfig, tail: seq<LinkConfig>)
    requires UniqueIds(tail)
    requires forall x :: x in tail ==> x.id != c.id
    ensures UniqueIds([c] + tail)
  {
    var r := [c] + tail;
    forall i, j | 0 <= i < j < |r| ensures r[i].id != r[j].id {
      assert r[j] == tail[j - 1];
      if i == 0 {
        assert tail[j - 1] in tail;
      } else {
        assert r[i] == tail[i - 1];
      }
    }
  }

  /** A list whose ids are unique keeps unique ids when links are removed from it. */
  lemma {:induction false} RemoveLinkUniqueIds(configs: seq<LinkConfig>, id: int)
    requires UniqueIds(configs)
    ensures UniqueIds(RemoveLink(configs, id))
  {
    if configs != [] {
      var rest := configs[1..];
      assert UniqueIds(rest) by {
        forall i, j | 0 <= i < j < |rest| ensures rest[i].id != rest[j].id {
          assert rest[i] == configs[i + 1] && rest[j] == configs[j + 1];
        }
      }
      RemoveLinkUniqueIds(rest, id);
      var tail := RemoveLink(rest, id);
      if configs[0].id != id {
        forall x | x in tail ensures x.id != configs[0].id {
          var k :| 0 <= k < |rest| && rest[k] == x;
          assert configs[k + 1] == x;
        }
        PrependUniqueIds(configs[0], tail);
      }
    }
  }

  lemma RemoveLinkKeepsInvariant(configs: seq<LinkConfig>, id: int)
    requires EditorInvariant(configs)
    ensures EditorInvariant(RemoveLink(configs, id))
  {
    RemoveLinkUniqueIds(configs, id);
  }

  /** One operator action in the editor. */
  datatype Edit =
    | AddKeywordEdit(id: int, keyword: string)
    | RemoveKeywordEdit(id: int, keyword: string)
    | AddLinkEdit
    | RemoveLinkEdit(id: int)

  function ApplyEdit(configs: seq<LinkConfig>, e: Edit): seq<LinkConfig> {
    match e
    case AddKeywordEdit(id, keyword) => AddKeyword(configs, id, keyword)
    case RemoveKeywordEdit(id, keyword) => RemoveKeyword(configs, id, keyword)
    case AddLinkEdit => AddLink(configs)
    case RemoveLinkEdit(id) => RemoveLink(configs, id)
  }

  function ApplyEdits(configs: seq<LinkConfig>, edits: seq<Edit>): seq<LinkConfig>
    decreases |edits|
  {
    if edits == [] then configs else ApplyEdits(ApplyEdit(configs, edits[0]), edits[1..])
  }

  /** Every list the editor can reach keeps unique ids and clean, duplicate-free keywords. */
  lemma EditKeepsInvariant(configs: seq<LinkConfig>, e: Edit)
    requires EditorInvariant(configs)
    ensures EditorInvariant(ApplyEdit(configs, e))
  {
    match e
    case AddKeywordEdit(id, keyword) => AddKeywordKeepsInvariant(configs, id, keyword);
    case RemoveKeywordEdit(id, keyword) => RemoveKeywordKeepsInvariant(configs, id, keyword);
    case AddLinkEdit => AddLinkKeepsInvariant(configs);
    case RemoveLinkEdit(id) => RemoveLinkKeepsInvariant(configs, id);
  }

  /** Every list the editor can reach keeps unique ids and clean, duplicate-free keywords. */
  lemma {:induction false} EditsKeepInvariant(configs: seq<LinkConfig>, edits: seq<Edit>)
    requires EditorInvariant(configs)
    ensures EditorInvariant(ApplyEdits(configs, edits))
    decreases |edits|
  {
    if edits != [] {
      EditKeepsInvariant(configs, edits[0]);
      EditsKeepInvariant(ApplyEdit(configs, edits[0]), edits[1..]);
    }
  }

  /** Starting from the default list, the invariant holds after any sequence of edits. */
  lemma ReachableInvariant(edits: seq<Edit>)
    ensures EditorInvariant(ApplyEdits(DefaultConfig(), edits))
  {
    DefaultConfigInvariant();
    EditsKeepInvariant(DefaultConfig(), edits);
  }
}
