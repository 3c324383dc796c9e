/**
 * The server's link configuration endpoints: `GET /api/config` reads the user's rows of the
 * `configs` table, `POST /api/config` replaces them wholesale and writes one audit row.
 */
module ConfigStore {
  import opened Schemas
  import opened Text

  /** The user's links, in table order: `[{"id": c.link_id, "keywords": ...} for c in configs]`. */
  function ConfigsOf(rows: seq<ConfigRow>, userId: int): (r: seq<LinkConfig>)
    ensures |r| <= |rows|
  {
    if rows == [] then [] else OwnLink(rows[0], userId) + ConfigsOf(rows[1..], userId)
  }

  /** The link a row contributes to its owner's list. */
  function OwnLink(row: ConfigRow, userId: int): seq<LinkConfig> {
    if row.userId == userId then [LinkConfig(row.linkId, row.keywords)] else []
  }

  /** The listed links are exactly the user's rows. */
  lemma {:induction false} ConfigsOfMembers(rows: seq<ConfigRow>, userId: int, link: LinkConfig)
    ensures link in ConfigsOf(rows, userId) <==> ConfigRow(userId, link.id, link.keywords) in rows
  {
    if rows != [] {
      ConfigsOfMembers(rows[1..], userId, link);
      assert rows == [rows[0]] + rows[1..];
    }
  }

  lemma {:induction false} ConfigsOfAppend(a: seq<ConfigRow>, b: seq<ConfigRow>, userId: int)
    ensures ConfigsOf(a + b, userId) == ConfigsOf(a, userId) + ConfigsOf(b, userId)
  {
    if a == [] {
      assert a + b == b;
    } else {
      var head := OwnLink(a[0], userId);
      calc {
        ConfigsOf(a + b, userId);
        { assert (a + b)[0] == a[0]; assert (a + b)[1..] == a[1..] + b; }
        head + ConfigsOf(a[1..] + b, userId);
        { ConfigsOfAppend(a[1..], b, userId); }
        head + (ConfigsOf(a[1..], userId) + ConfigsOf(b, userId));
        (head + ConfigsOf(a[1..], userId)) + ConfigsOf(b, userId);
      }
    }
  }

  /** `query(Config).filter(Config.user_id == user).delete()`: the rows that survive. */
  function RowsOfOthers(rows: seq<ConfigRow>, userId: int): (r: seq<ConfigRow>)
    ensures forall row :: row in r <==> row in rows && row.userId != userId
  {
    if rows == [] then []
    else
      assert rows == [rows[0]] + rows[1..];
      (if rows[0].userId != userId then [rows[0]] else []) + RowsOfOthers(rows[1..], userId)
  }

  /** The rows `update_config` adds for the submitted links, in submission order. */
  function RowsFor(userId: int, links: seq<LinkConfig>): (r: seq<ConfigRow>)
    ensures |r| == |links|
  {
    if links == [] then []
    else
      var last := links[|links| - 1];
      RowsFor(userId, links[..|links| - 1]) + [ConfigRow(userId, last.id, last.keywords)]
  }

  /** Reading back the rows written for `userId` gives exactly the submitted list; other users see none. */
  lemma {:induction false} ConfigsOfRowsFor(userId: int, links: seq<LinkConfig>, other: int)
    ensures ConfigsOf(RowsFor(userId, links), userId) == links
    ensures other != userId ==> ConfigsOf(RowsFor(userId, links), other) == []
  {
    if links != [] {
      var init := links[..|links| - 1];
      var last := links[|links| - 1];
      ConfigsOfRowsFor(userId, init, other);
      ConfigsOfAppend(RowsFor(userId, init), [ConfigRow(userId, last.id, last.keywords)], userId);
      ConfigsOfAppend(RowsFor(userId, init), [ConfigRow(userId, last.id, last.keywords)], other);
      assert [ConfigRow(userId, last.id, last.keywords)][1..] == [];
      assert init + [last] == links;
    }
  }

  /** Deleting a user's rows leaves that user none and every other user the same list. */
  lemma {:induction false} ConfigsOfRowsOfOthers(rows: seq<ConfigRow>, userId: int, other: int)
    ensures ConfigsOf(RowsOfOthers(rows, userId), userId) == []
    ensures other != userId ==> ConfigsOf(RowsOfOthers(rows, userId), other) == ConfigsOf(rows, other)
  {
    if rows != [] {
      ConfigsOfRowsOfOthers(rows[1..], userId, other);
      var head := if rows[0].userId != userId then [rows[0]] else [];
      ConfigsOfAppend(head, RowsOfOthers(rows[1..], userId), userId);
      ConfigsOfAppend(head, RowsOfOthers(rows[1..], userId), other);
      if head != [] {
        assert head[1..] == [];
      }
    }
  }

  /** The text of the audit row: `f"Updated {len(configs)} links"`. */
  function UpdateDetails(count: nat): (r: string)
    ensures |r| > 14 && r[..8] == "Updated " && r[|r| - 6..] == " links"
    ensures forall i :: 8 <= i < |r| - 6 ==> '0' <= r[i] <= '9'
    ensures DecimalValue(r[8..|r| - 6]) == count
    ensures r[8] == '0' <==> count == 0
    ensures count == 0 ==> r == "Updated 0 links"
  {
    var digits := NatToString(count);
    NatToStringValue(count);
    var r := "Updated " + digits + " links";
    assert r[8..|r| - 6] == digits;
    r
  }

  /** The `configs` and `audits` tables. */
  class Store {
    var configs: seq<ConfigRow>
    var audits: seq<AuditRow>

    constructor ()
      ensures configs == [] && audits == []
    {
      configs := [];
      audits := [];
    }

    /** `get_config` */
    function GetConfig(userId: int): (r: seq<LinkConfig>)
      reads this
      ensures |r| <= |configs|
    {
      ConfigsOf(configs, userId)
    }

    /** A link is in `get_config`'s answer exactly when the table holds a row of that user for it. */
    lemma GetConfigMembers(userId: int, link: LinkConfig)
      ensures link in GetConfig(userId) <==> ConfigRow(userId, link.id, link.keywords) in configs
    {
      ConfigsOfMembers(configs, userId, link);
    }

    /**
     * `update_config`: deletes the user's rows, adds one row per submitted link with no check
     * on the ids or keywords, and records one `update_config` audit row.
     */
    method UpdateConfig(userId: int, links: seq<LinkConfig>, now: Timestamp)
      modifies this
      ensures configs == RowsOfOthers(old(configs), userId) + RowsFor(userId, links)
      ensures audits == old(audits) + [AuditRow(userId, "update_config", UpdateDetails(|links|), "unknown", now)]
      ensures GetConfig(userId) == links
      ensures forall u :: u != userId ==> GetConfig(u) == old(GetConfig(u))
    {
      ghost var before := configs;
      configs := RowsOfOthers(configs, userId);
      var i := 0;
      while i < |links|
        invariant 0 <= i <= |links|
        invariant configs == RowsOfOthers(before, userId) + RowsFor(userId, links[..i])
        invariant audits == old(audits)
      {
        configs := configs + [ConfigRow(userId, links[i].id, links[i].keywords)];
        assert links[..i + 1][..i] == links[..i];
        i := i + 1;
      }
      assert links[..i] == links;
      audits := audits + [AuditRow(userId, "update_config", UpdateDetails(|links|), "unknown", now)];
      forall u
        ensures ConfigsOf(configs, u) == (if u == userId then links else ConfigsOf(before, u))
      {
        ConfigsOfAppend(RowsOfOthers(before, userId), RowsFor(userId, links), u);
        ConfigsOfRowsOfOthers(before, userId, u);
        ConfigsOfRowsFor(userId, links, u);
      }
    }
  }
}
