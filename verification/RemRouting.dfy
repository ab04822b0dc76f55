/**
 * The REM team routing list (`rem_team_directory.rs`). The code walks hash maps and hash
 * sets, whose iteration order is arbitrary. Here a method picks the next element as it
 * likes; only the order in which announces are visited is a parameter, because a tie
 * between two announces is settled by it.
 */
module RemRouting {
  import opened Wrappers
  import opened Text

  // ---- records -------------------------------------------------------------------------------

  /** `IdentityAnnounceRecord`, as far as routing reads it. */
  datatype Announce = Announce(
    destinationHash: string,
    announcedIdentityHash: Option<string>,
    hasDisplayName: bool,
    sourceInterface: Option<string>,
    capabilities: seq<string>,
    clientType: string,
    lastSeen: int)

  datatype Member = Member(uid: string, teamUid: Option<string>, rnsIdentity: string, clientIdentities: seq<string>)

  datatype IdentityState = IdentityState(isBanned: bool, isBlackholed: bool)

  /** The maps of `RchCore` that routing reads; a link joins a member's uid and an identity. */
  datatype Core = Core(
    announces: map<string, Announce>,
    members: map<string, Member>,
    links: set<(string, string)>,
    states: map<string, IdentityState>)

  /** An order in which the announces can be visited. */
  ghost predicate IsOrder(order: seq<string>, core: Core) {
    && (forall i, j | 0 <= i < j < |order| :: order[i] != order[j])
    && (forall key :: key in order <==> key in core.announces)
  }

  const CANONICAL_TEAMS: set<string> := {
    "d6b6e188b910d6bdd24d04b7a7ec5444", "65ce79a3a3e4b51ec0ec52d1d3d2b0b9", "43341e5c822d99857fa6e8641f2ca9c0",
    "a83eb640e4c4884be14831e3d7ef5ae0", "7ac50a910f42b06cd9cb68dad3def681", "372824ef4f15881291455562f7570233",
    "4bf2a1d2217c8668942658137f2a6824", "cbb35fc9a8f5a91d7bd2b5e5b644edcd", "d4cd5030b68df059ec6beabe416dd6a6",
    "4d7a7a974beec395bf83491604768499", "612a32262163b73a80eca944c2158546", "341653613d4c76d56bee99c1f38177b1",
    "4efe72ac30f5b85142fdcab6d96c7631"
  }

  /** `normalize_hash`. */
  function Normalize(text: string): Option<string> {
    var t := Lower(Trim(text));
    if t == "" then None else Some(t)
  }

  lemma LowerKeepsWhitespace(s: string)
    requires IsTrimmed(s)
    ensures IsTrimmed(Lower(s)) && Lower(Lower(s)) == Lower(s)
  {
  }

  lemma NormalizeIsIdempotent(text: string)
    ensures var n := Normalize(text); n.Some? ==> Normalize(n.value) == n
  {
    TrimTrims(text);
    LowerKeepsWhitespace(Trim(text));
    TrimTrims(Lower(Trim(text)));
  }

  // ---- the best announce of an identity ---------------------------------------------------------

  datatype Rank = Rank(first: bool, second: bool, time: int)

  predicate RankLe(a: Rank, b: Rank) {
    if a.first != b.first then b.first else if a.second != b.second then b.second else a.time <= b.time
  }

  /** `max_by_key`: the last of the greatest. */
  function MaxByKey(records: seq<Announce>, rank: Announce -> Rank): Option<Announce> {
    if records == [] then None
    else
      var last := records[|records| - 1];
      match MaxByKey(records[..|records| - 1], rank)
      case None => Some(last)
      case Some(best) => if RankLe(rank(best), rank(last)) then Some(last) else Some(best)
  }

  /** The announces that satisfy `keep`, in the order of their keys. */
  function Kept(core: Core, order: seq<string>, keep: Announce -> bool): seq<Announce> {
    if order == [] then []
    else
      var rest := Kept(core, order[1..], keep);
      if order[0] in core.announces && keep(core.announces[order[0]]) then [core.announces[order[0]]] + rest else rest
  }

  predicate HasRemCapabilities(record: Announce) {
    "r3akt" in record.capabilities && "emergencymessages" in record.capabilities
  }

  /** The identity an announce speaks for. */
  function Subject(record: Announce): Option<string> {
    var announced := if record.announcedIdentityHash.Some? then Normalize(record.announcedIdentityHash.value) else None;
    if announced.Some? then announced else Normalize(record.destinationHash)
  }

  predicate Eligible(record: Announce, identity: string) {
    Subject(record) == Some(identity) && EqIgnoreAsciiCase(Trim(record.clientType), "rem") && HasRemCapabilities(record)
  }

  function RemRank(record: Announce): Rank {
    Rank(record.sourceInterface == Some("destination"), false, record.lastSeen)
  }

  /** `best_rem_announce_for_identity`. */
  function BestRemAnnounce(core: Core, order: seq<string>, identity: string): Option<Announce> {
    MaxByKey(Kept(core, order, (record: Announce) => Eligible(record, identity)), RemRank)
  }

  function DestinationOf(record: Announce, identity: string): string {
    match Normalize(record.destinationHash) case Some(hash) => hash case None => identity
  }

  // ---- who asks ------------------------------------------------------------------------------------

  function AnnounceRank(record: Announce): Rank {
    Rank(record.sourceInterface == Some("identity"), record.hasDisplayName, record.lastSeen)
  }

  /** The greatest announce that names the identity. */
  function AnnounceOf(core: Core, order: seq<string>, id: string): Option<Announce> {
    MaxByKey(Kept(core, order, (record: Announce) => record.announcedIdentityHash == Some(id)), AnnounceRank)
  }

  /** `identity_announce_for_identity`. */
  function IdentityAnnounce(core: Core, order: seq<string>, identity: string): Option<Announce> {
    match Normalize(identity)
    case None => None
    case Some(id) =>
      if id in core.announces then Some(core.announces[id])
      else AnnounceOf(core, order, id)
  }

  /** `canonical_identity_for_rem_source`. */
  function CanonicalIdentity(core: Core, order: seq<string>, source: string): Option<string> {
    match Normalize(source)
    case None => None
    case Some(id) =>
      var record := IdentityAnnounce(core, order, id);
      var announced := if record.Some? && record.value.announcedIdentityHash.Some?
                       then Normalize(record.value.announcedIdentityHash.value) else None;
      if announced.Some? then announced else Some(id)
  }

  /** `member_has_identity`. */
  predicate HasIdentity(core: Core, member: Member, identity: string) {
    || Normalize(member.rnsIdentity) == Some(identity)
    || (exists client | client in member.clientIdentities :: Normalize(client) == Some(identity))
    || (member.uid, identity) in core.links
  }

  /** `member_identities`. */
  function MemberIdentities(core: Core, member: Member): set<string> {
    (set text | text in [member.rnsIdentity] + member.clientIdentities && Normalize(text).Some? :: Normalize(text).value)
    + (set link: (string, string) | link in core.links && link.0 == member.uid && Normalize(link.1).Some? :: Normalize(link.1).value)
  }

  /** `shared_team_uids_for_rem_source`. */
  function SharedTeams(core: Core, order: seq<string>, source: string): set<string> {
    match CanonicalIdentity(core, order, source)
    case None => {}
    case Some(identity) =>
      set key | key in core.members && HasIdentity(core, core.members[key], identity)
                && core.members[key].teamUid.Some? :: core.members[key].teamUid.value
  }

  // ---- the directory -----------------------------------------------------------------------------------

  /** Which identity of which member of which team. */
  datatype Key = Key(teamUid: string, memberUid: string, identity: string)

  /** The fields of a directory row that routing uses. */
  datatype Row = Row(key: Key, destination: string)

  datatype Query = Query(teamUids: set<string>, requesterIdentity: Option<string>, requesterDestination: Option<string>)

  predicate Barred(core: Core, hash: string) {
    hash in core.states && (core.states[hash].isBanned || core.states[hash].isBlackholed)
  }

  predicate InTeams(member: Member, query: Query) {
    member.teamUid.Some? && member.teamUid.value in query.teamUids && member.teamUid.value in CANONICAL_TEAMS
  }

  /** Where an announce of `identity` routes to, unless that is the requester or barred. */
  function RouteOf(core: Core, query: Query, identity: string, record: Announce): Option<string> {
    var destination := DestinationOf(record, identity);
    if query.requesterDestination == Some(destination) || Barred(core, destination) then None else Some(destination)
  }

  function Route(core: Core, order: seq<string>, query: Query, identity: string): Option<string> {
    if query.requesterIdentity == Some(identity) || Barred(core, identity) then None
    else match BestRemAnnounce(core, order, identity)
      case None => None
      case Some(record) => RouteOf(core, query, identity, record)
  }

  predicate Offers(core: Core, query: Query, at: string, identity: string) {
    at in core.members && InTeams(core.members[at], query) && identity in MemberIdentities(core, core.members[at])
  }

  function KeyAt(core: Core, query: Query, at: string, identity: string): (key: Key)
    requires Offers(core, query, at, identity)
    ensures key.identity == identity
  {
    Key(core.members[at].teamUid.value, core.members[at].uid, identity)
  }

  /** The member at `at` brings `key` into the directory, if its identity has a route. */
  ghost predicate Brings(core: Core, query: Query, at: string, key: Key) {
    Offers(core, query, at, key.identity) && key == KeyAt(core, query, at, key.identity)
  }

  // ---- sorting rows -------------------------------------------------------------------------------------

  /** `str::cmp`, strictly less. */
  predicate TextLess(a: string, b: string) {
    b != "" && (a == "" || a[0] < b[0] || (a[0] == b[0] && TextLess(a[1..], b[1..])))
  }

  lemma {:induction false} TextLessIsTotal(a: string, b: string)
    ensures TextLess(a, b) || a == b || TextLess(b, a)
    ensures !(TextLess(a, b) && TextLess(b, a)) && !TextLess(a, a)
  {
    if a != "" {
      TextLessIsTotal(a[1..], a[1..]);
      if b != "" && a[0] == b[0] {
        TextLessIsTotal(a[1..], b[1..]);
        assert a == [a[0]] + a[1..] && b == [b[0]] + b[1..];
      }
    }
  }

  lemma {:induction false} TextLessIsTransitive(a: string, b: string, c: string)
    requires TextLess(a, b) && TextLess(b, c)
    ensures TextLess(a, c)
  {
    if a != "" && a[0] == b[0] == c[0] {
      TextLessIsTransitive(a[1..], b[1..], c[1..]);
    }
  }

  /** By team, member and identity. */
  predicate KeyLess(a: Key, b: Key) {
    || TextLess(a.teamUid, b.teamUid)
    || (a.teamUid == b.teamUid && TextLess(a.memberUid, b.memberUid))
    || (a.teamUid == b.teamUid && a.memberUid == b.memberUid && TextLess(a.identity, b.identity))
  }

  lemma KeyLessIsTotal(a: Key, b: Key)
    ensures KeyLess(a, b) || a == b || KeyLess(b, a)
    ensures !(KeyLess(a, b) && KeyLess(b, a)) && !KeyLess(a, a)
  {
    hide TextLess;
    TextLessIsTotal(a.teamUid, b.teamUid);
    TextLessIsTotal(a.memberUid, b.memberUid);
    TextLessIsTotal(a.identity, b.identity);
    TextLessIsTotal(a.teamUid, a.teamUid);
    TextLessIsTotal(a.memberUid, a.memberUid);
    TextLessIsTotal(a.identity, a.identity);
  }

  lemma KeyLessIsTransitive(a: Key, b: Key, c: Key)
    requires KeyLess(a, b) && KeyLess(b, c)
    ensures KeyLess(a, c)
  {
    hide TextLess;
    if TextLess(a.teamUid, b.teamUid) && TextLess(b.teamUid, c.teamUid) {
      TextLessIsTransitive(a.teamUid, b.teamUid, c.teamUid);
    } else if TextLess(a.memberUid, b.memberUid) && TextLess(b.memberUid, c.memberUid) {
      TextLessIsTransitive(a.memberUid, b.memberUid, c.memberUid);
    } else if TextLess(a.identity, b.identity) && TextLess(b.identity, c.identity) {
      TextLessIsTransitive(a.identity, b.identity, c.identity);
    }
  }

  ghost predicate Strict(rows: seq<Row>) {
    forall i, j | 0 <= i < j < |rows| :: KeyLess(rows[i].key, rows[j].key)
  }

  function Insert(row: Row, rows: seq<Row>): (r: seq<Row>)
    ensures |r| == |rows| + 1 && forall x :: x in r <==> x == row || x in rows
  {
    if rows == [] || KeyLess(row.key, rows[0].key) then [row] + rows else [rows[0]] + Insert(row, rows[1..])
  }

  /** The stable sort of the rows. */
  function SortRows(rows: seq<Row>): (r: seq<Row>)
    ensures |r| == |rows| && forall x :: x in r <==> x in rows
  {
    if rows == [] then [] else Insert(rows[|rows| - 1], SortRows(rows[..|rows| - 1]))
  }

  /** No two rows have the same key. */
  ghost predicate KeysDistinct(rows: seq<Row>) {
    forall i, j | 0 <= i < j < |rows| :: rows[i].key != rows[j].key
  }

  lemma {:induction false} InsertIsStrict(row: Row, rows: seq<Row>)
    requires Strict(rows) && forall x | x in rows :: x.key != row.key
    ensures Strict(Insert(row, rows))
  {
    hide KeyLess;
    if rows != [] {
      KeyLessIsTotal(row.key, rows[0].key);
      if KeyLess(row.key, rows[0].key) {
        forall k | 0 < k < |rows| ensures KeyLess(row.key, rows[k].key) {
          KeyLessIsTransitive(row.key, rows[0].key, rows[k].key);
        }
      } else {
        assert rows[0] in rows;
        InsertIsStrict(row, rows[1..]);
        forall x | x in Insert(row, rows[1..]) ensures KeyLess(rows[0].key, x.key) {
          if x != row {
            var k :| 0 <= k < |rows[1..]| && rows[1..][k] == x;
            assert rows[k + 1] == x;
          }
        }
      }
    }
  }

  lemma {:induction false} SortIsStrict(rows: seq<Row>)
    requires KeysDistinct(rows)
    ensures Strict(SortRows(rows))
  {
    hide KeyLess;
    if rows != [] {
      var init := rows[..|rows| - 1];
      SortIsStrict(init);
      InsertIsStrict(rows[|rows| - 1], SortRows(init));
    }
  }

  /** Strictly sorted rows are determined by which rows they are. */
  lemma {:induction false} StrictIsUnique(a: seq<Row>, b: seq<Row>)
    requires Strict(a) && Strict(b) && forall x :: x in a <==> x in b
    ensures a == b
  {
    hide KeyLess;
    HeadIsIn(b);
    if a != [] {
      assert a[0] in a;
      var k :| 0 <= k < |b| && b[k] == a[0];
      assert b[0] in b;
      var j :| 0 <= j < |a| && a[j] == b[0];
      KeyLessIsTotal(a[0].key, b[0].key);
      assert a[0] == b[0];
      forall x ensures x in a[1..] <==> x in b[1..] {
        TailIsRest(a, x);
        TailIsRest(b, x);
      }
      StrictIsUnique(a[1..], b[1..]);
    }
  }

  lemma HeadIsIn(rows: seq<Row>)
    ensures rows != [] ==> rows[0] in rows
  {
  }

  lemma TailIsRest(rows: seq<Row>, x: Row)
    requires rows != [] && Strict(rows)
    ensures x in rows[1..] <==> x in rows && x != rows[0]
  {
    hide KeyLess;
    if x in rows[1..] {
      var k :| 0 <= k < |rows[1..]| && rows[1..][k] == x;
      assert rows[k + 1] == x;
      KeyLessIsTotal(rows[0].key, x.key);
    }
  }

  // ---- the rows of some keys under some routes ---------------------------------------------------------------

  ghost predicate IsRow(keys: set<Key>, route: string -> Option<string>, row: Row) {
    row.key in keys && route(row.key.identity) == Some(row.destination)
  }

  ghost function RowSet(keys: set<Key>, route: string -> Option<string>): (rows: set<Row>)
    ensures forall row :: row in rows <==> IsRow(keys, route, row)
  {
    set key | key in keys && route(key.identity).Some? :: Row(key, route(key.identity).value)
  }

  ghost predicate Distinct(rows: seq<Row>) {
    forall i, j | 0 <= i < j < |rows| :: rows[i] != rows[j]
  }

  ghost function Listed(rows: set<Row>): (list: seq<Row>)
    ensures Distinct(list) && |list| == |rows| && forall row :: row in list <==> row in rows
  {
    if rows == {} then [] else var row :| row in rows; [row] + Listed(rows - {row})
  }

  /** The rows in order. */
  ghost function Sorted(keys: set<Key>, route: string -> Option<string>): seq<Row> {
    SortRows(Listed(RowSet(keys, route)))
  }

  lemma RowsHaveOwnKeys(keys: set<Key>, route: string -> Option<string>, rows: seq<Row>)
    requires Distinct(rows) && forall row | row in rows :: IsRow(keys, route, row)
    ensures KeysDistinct(rows)
  {
    forall i, j | 0 <= i < j < |rows| ensures rows[i].key != rows[j].key {
      assert rows[i] in rows && rows[j] in rows;
    }
  }

  /** Whatever list the rows come in, sorting it gives the same. */
  lemma SortingIsUnique(keys: set<Key>, route: string -> Option<string>, rows: seq<Row>)
    requires Distinct(rows) && forall row :: row in rows <==> IsRow(keys, route, row)
    ensures SortRows(rows) == Sorted(keys, route) && Strict(SortRows(rows))
  {
    hide IsRow, SortRows, Strict, Distinct, Listed, RowSet, KeysDistinct;
    var listed := Listed(RowSet(keys, route));
    RowsHaveOwnKeys(keys, route, rows);
    RowsHaveOwnKeys(keys, route, listed);
    SortIsStrict(rows);
    SortIsStrict(listed);
    StrictIsUnique(SortRows(rows), SortRows(listed));
  }

  lemma SortedIsExact(keys: set<Key>, route: string -> Option<string>)
    ensures var rows := Sorted(keys, route);
            && Strict(rows) && |rows| == |RowSet(keys, route)|
            && forall row :: row in rows <==> IsRow(keys, route, row)
  {
    hide IsRow, SortRows, Strict, Distinct, RowSet;
    SortingIsUnique(keys, route, Listed(RowSet(keys, route)));
  }

  function Destinations(rows: seq<Row>): seq<string> {
    seq(|rows|, i requires 0 <= i < |rows| => rows[i].destination)
  }

  /** A route that is lost makes the list shorter. */
  lemma LostRouteShows(keys: set<Key>, r1: string -> Option<string>, r2: string -> Option<string>, key: Key)
    requires key in keys && r1(key.identity).Some? && r2(key.identity).None?
    requires forall other | other != key.identity :: r1(other) == r2(other)
    ensures |Sorted(keys, r2)| < |Sorted(keys, r1)|
  {
    SortedIsExact(keys, r1);
    SortedIsExact(keys, r2);
    hide Sorted;
    var more, fewer := RowSet(keys, r1), RowSet(keys, r2);
    forall row | row in fewer ensures row in more {
      assert row.key.identity != key.identity;
    }
    var lost := Row(key, r1(key.identity).value);
    assert lost in more && lost !in fewer;
    assert more == fewer + (more - fewer);
  }

  function Rerouted(rows: seq<Row>, identity: string, destination: string): seq<Row> {
    seq(|rows|, i requires 0 <= i < |rows| => if rows[i].key.identity == identity then rows[i].(destination := destination) else rows[i])
  }

  /** A route that changes changes its places in the list and no others. */
  lemma ChangedRouteShows(keys: set<Key>, r1: string -> Option<string>, r2: string -> Option<string>, key: Key)
    requires key in keys && r1(key.identity).Some? && r2(key.identity).Some?
    requires forall other | other != key.identity :: r1(other) == r2(other)
    ensures Sorted(keys, r2) == Rerouted(Sorted(keys, r1), key.identity, r2(key.identity).value)
    ensures Row(key, r1(key.identity).value) in Sorted(keys, r1)
  {
    SortedIsExact(keys, r1);
    SortedIsExact(keys, r2);
    hide Sorted, RowSet, KeyLess;
    var identity, rows := key.identity, Sorted(keys, r1);
    var d1, d2 := r1(identity).value, r2(identity).value;
    var changed := Rerouted(rows, identity, d2);
    assert forall i | 0 <= i < |rows| :: changed[i].key == rows[i].key;
    forall row ensures row in changed <==> IsRow(keys, r2, row) {
      if row in changed {
        var i :| 0 <= i < |changed| && changed[i] == row;
        assert rows[i] in rows;
      }
      if IsRow(keys, r2, row) {
        var was := if row.key.identity == identity then Row(row.key, d1) else row;
        assert was in rows;
        var i :| 0 <= i < |rows| && rows[i] == was;
        assert changed[i] == row;
      }
    }
    StrictIsUnique(changed, Sorted(keys, r2));
    assert IsRow(keys, r1, Row(key, d1));
  }

  lemma DifferentRoutesShow(keys: set<Key>, r1: string -> Option<string>, r2: string -> Option<string>, key: Key)
    requires key in keys && r1(key.identity) != r2(key.identity)
    requires forall other | other != key.identity :: r1(other) == r2(other)
    ensures Destinations(Sorted(keys, r1)) != Destinations(Sorted(keys, r2))
  {
    if r1(key.identity).None? {
      LostRouteShows(keys, r2, r1, key);
    } else if r2(key.identity).None? {
      LostRouteShows(keys, r1, r2, key);
    } else {
      ChangedRouteShows(keys, r1, r2, key);
      hide Sorted;
      var rows := Sorted(keys, r1);
      var i :| 0 <= i < |rows| && rows[i] == Row(key, r1(key.identity).value);
      assert Destinations(rows)[i] != Destinations(Sorted(keys, r2))[i];
    }
  }

  /** Only the routes of identities among the keys matter. */
  lemma SameRoutesSameRows(keys: set<Key>, r1: string -> Option<string>, r2: string -> Option<string>)
    requires forall key | key in keys :: r1(key.identity) == r2(key.identity)
    ensures Sorted(keys, r1) == Sorted(keys, r2)
  {
    SortedIsExact(keys, r1);
    SortedIsExact(keys, r2);
    hide Sorted, RowSet, Strict;
    StrictIsUnique(Sorted(keys, r1), Sorted(keys, r2));
  }

  // ---- the list --------------------------------------------------------------------------------------------

  /** The keys that the members of the teams bring. */
  ghost function KeysOf(core: Core, query: Query): set<Key> {
    set at, identity | at in core.members && identity in MemberIdentities(core, core.members[at])
                       && Offers(core, query, at, identity)
                     :: KeyAt(core, query, at, identity)
  }

  lemma KeysOfIsExact(core: Core, query: Query)
    ensures forall key :: key in KeysOf(core, query) <==> exists at :: Brings(core, query, at, key)
  {
    hide KeyAt, MemberIdentities;
    forall key, at | Brings(core, query, at, key) ensures key in KeysOf(core, query) {
      assert at in core.members && key.identity in MemberIdentities(core, core.members[at]);
    }
    hide Offers;
    forall key | key in KeysOf(core, query) ensures exists at :: Brings(core, query, at, key) {
      var at, identity :| at in core.members && identity in MemberIdentities(core, core.members[at])
                          && Offers(core, query, at, identity) && key == KeyAt(core, query, at, identity);
      assert Brings(core, query, at, key);
    }
  }

  function Routes(core: Core, order: seq<string>, query: Query): string -> Option<string> {
    (identity: string) => Route(core, order, query, identity)
  }

  /** The directory: the rows of the members' keys under the routes of their identities, in order. */
  ghost function Directory(core: Core, order: seq<string>, query: Query): seq<Row> {
    Sorted(KeysOf(core, query), Routes(core, order, query))
  }

  predicate Allowed(core: Core, order: seq<string>, source: string, teamUid: string) {
    teamUid in CANONICAL_TEAMS && teamUid in SharedTeams(core, order, source)
  }

  function QueryOf(core: Core, order: seq<string>, source: string, teamUid: string): Query {
    Query({teamUid}, CanonicalIdentity(core, order, source), Normalize(source))
  }

  ghost function Routing(core: Core, order: seq<string>, source: string, teamUid: string): seq<string> {
    if Allowed(core, order, source, teamUid)
    then Destinations(Directory(core, order, QueryOf(core, order, source, teamUid))) else []
  }

  /** Visits members and their identities in any order, and comes to the same directory. */
  method DurableTeamDirectoryMembers(core: Core, order: seq<string>, query: Query) returns (members: seq<Row>)
    ensures members == Directory(core, order, query)
  {
    hide MemberIdentities, InTeams, BestRemAnnounce, Barred, DestinationOf;
    members := [];
    var seen: set<Row> := {};
    var places := core.members.Keys;
    while places != {}
      invariant places <= core.members.Keys
      invariant Distinct(members) && forall row :: row in members <==> row in seen
      invariant forall row :: row in seen <==>
                  && Route(core, order, query, row.key.identity) == Some(row.destination)
                  && exists at :: at !in places && Brings(core, query, at, row.key)
    {
      var at :| at in places;
      places := places - {at};
      var member := core.members[at];
      if !InTeams(member, query) {
        continue;
      }
      TeamIsKnown(member, query);
      var identities := MemberIdentities(core, member);
      ghost var before := seen;
      while identities != {}
        invariant identities <= MemberIdentities(core, member)
        invariant Distinct(members) && forall row :: row in members <==> row in seen
        invariant forall row :: row in seen <==>
                    || row in before
                    || (row.key.identity !in identities && Brings(core, query, at, row.key)
                        && Route(core, order, query, row.key.identity) == Some(row.destination))
      {
        var identity :| identity in identities;
        identities := identities - {identity};
        if query.requesterIdentity == Some(identity) {
          continue;
        }
        if Barred(core, identity) {
          continue;
        }
        var record := BestRemAnnounce(core, order, identity);
        if record.None? {
          continue;
        }
        var destination := DestinationOf(record.value, identity);
        if query.requesterDestination == Some(destination) || Barred(core, destination) {
          continue;
        }
        var row := Row(Key(member.teamUid.value, member.uid, identity), destination);
        if row in seen {
          continue;
        }
        seen := seen + {row};
        members := members + [row];
      }
    }
    SortedIsDirectory(core, order, query, members);
    members := SortRows(members);
  }

  lemma TeamIsKnown(member: Member, query: Query)
    requires InTeams(member, query)
    ensures member.teamUid.Some?
  {
  }

  /** Whatever list the rows come in, sorting it gives the directory. */
  lemma SortedIsDirectory(core: Core, order: seq<string>, query: Query, rows: seq<Row>)
    requires Distinct(rows)
    requires forall row :: row in rows <==>
               && Route(core, order, query, row.key.identity) == Some(row.destination)
               && exists at :: Brings(core, query, at, row.key)
    ensures SortRows(rows) == Directory(core, order, query)
  {
    hide Route, Brings, SortRows, Sorted, Distinct, KeysOf;
    KeysOfIsExact(core, query);
    SortingIsUnique(KeysOf(core, query), Routes(core, order, query), rows);
  }

  method RemTeamRoutingDestinations(core: Core, order: seq<string>, source: string, teamUid: string)
    returns (destinations: seq<string>)
    ensures destinations == Routing(core, order, source, teamUid)
  {
    if teamUid !in CANONICAL_TEAMS || teamUid !in SharedTeams(core, order, source) {
      return [];
    }
    var members := DurableTeamDirectoryMembers(core, order, QueryOf(core, order, source, teamUid));
    destinations := Destinations(members);
  }

  // ---- which announce wins ------------------------------------------------------------------------------------

  lemma {:induction false} MaxIsGreatest(records: seq<Announce>, rank: Announce -> Rank)
    ensures MaxByKey(records, rank).None? <==> records == []
    ensures var best := MaxByKey(records, rank);
            best.Some? ==> best.value in records && forall x | x in records :: RankLe(rank(x), rank(best.value))
  {
    if records != [] {
      var init, last := records[..|records| - 1], records[|records| - 1];
      MaxIsGreatest(init, rank);
      assert forall x :: x in records <==> x in init || x == last;
    }
  }

  lemma {:induction false} KeptAre(core: Core, order: seq<string>, keep: Announce -> bool)
    ensures forall x :: x in Kept(core, order, keep) <==>
              exists key :: key in order && key in core.announces && core.announces[key] == x && keep(x)
  {
    if order != [] {
      KeptAre(core, order[1..], keep);
      assert forall key :: key in order <==> key == order[0] || key in order[1..];
    }
  }

  lemma {:induction false} KeptJoins(core: Core, a: seq<string>, b: seq<string>, keep: Announce -> bool)
    ensures Kept(core, a + b, keep) == Kept(core, a, keep) + Kept(core, b, keep)
  {
    if a == [] {
      assert a + b == b;
    } else {
      assert (a + b)[1..] == a[1..] + b;
      KeptJoins(core, a[1..], b, keep);
    }
  }

  /** An announce that could be chosen for an identity: none that is eligible ranks higher. */
  ghost predicate Greatest(core: Core, identity: string, record: Announce) {
    && (exists key | key in core.announces :: core.announces[key] == record)
    && Eligible(record, identity)
    && forall key | key in core.announces && Eligible(core.announces[key], identity) ::
         RankLe(RemRank(core.announces[key]), RemRank(record))
  }

  /** The chosen announce is one of the greatest; there is none only if no announce is eligible. */
  lemma BestIsGreatest(core: Core, order: seq<string>, identity: string)
    requires IsOrder(order, core)
    ensures var best := BestRemAnnounce(core, order, identity);
            && (best.Some? ==> Greatest(core, identity, best.value))
            && (best.None? ==> forall key | key in core.announces :: !Eligible(core.announces[key], identity))
  {
    hide Eligible, RankLe, RemRank;
    var keep := (record: Announce) => Eligible(record, identity);
    var kept := Kept(core, order, keep);
    KeptAre(core, order, keep);
    MaxIsGreatest(kept, RemRank);
    forall key | key in core.announces && Eligible(core.announces[key], identity) ensures core.announces[key] in kept {
      assert key in order;
    }
  }

  function MovedLast(order: seq<string>, k: nat): seq<string>
    requires k < |order|
  {
    order[..k] + order[k + 1..] + [order[k]]
  }

  lemma MovedIsOrder(core: Core, order: seq<string>, k: nat)
    requires IsOrder(order, core) && k < |order|
    ensures IsOrder(MovedLast(order, k), core)
  {
    hide MovedLast;
    MovedAreDistinct(order, k);
    MovedAreSame(order, k);
  }

  /** Where the entries of a moved order came from. */
  function Source(order: seq<string>, k: nat, i: nat): (from: nat)
    requires k < |order| && i < |order|
    ensures from < |order|
  {
    if i < k then i else if i < |order| - 1 then i + 1 else k
  }

  lemma MovedFrom(order: seq<string>, k: nat, i: nat)
    requires k < |order| && i < |order|
    ensures |MovedLast(order, k)| == |order| && MovedLast(order, k)[i] == order[Source(order, k, i)]
  {
  }

  lemma MovedAreDistinct(order: seq<string>, k: nat)
    requires k < |order| && forall i, j | 0 <= i < j < |order| :: order[i] != order[j]
    ensures forall i, j | 0 <= i < j < |MovedLast(order, k)| :: MovedLast(order, k)[i] != MovedLast(order, k)[j]
  {
    MovedFrom(order, k, 0);
    hide MovedLast;
    forall i, j | 0 <= i < j < |order| ensures MovedLast(order, k)[i] != MovedLast(order, k)[j] {
      MovedFrom(order, k, i);
      MovedFrom(order, k, j);
    }
  }

  lemma MovedAreSame(order: seq<string>, k: nat)
    requires k < |order|
    ensures forall key :: key in MovedLast(order, k) <==> key in order
  {
    forall key ensures key in MovedLast(order, k) <==> key in order {
      if key in order {
        var i :| 0 <= i < |order| && order[i] == key;
        MovedFrom(order, k, if i < k then i else if i == k then |order| - 1 else i - 1);
      }
    }
  }

  /** Any of the greatest can be chosen, by visiting it last; the choice for other identities stays. */
  lemma AnyGreatestCanWin(core: Core, order: seq<string>, identity: string, record: Announce) returns (moved: seq<string>)
    requires IsOrder(order, core) && Greatest(core, identity, record)
    ensures IsOrder(moved, core)
    ensures BestRemAnnounce(core, moved, identity) == Some(record)
    ensures forall other | other != identity :: BestRemAnnounce(core, moved, other) == BestRemAnnounce(core, order, other)
  {
    var key :| key in core.announces && core.announces[key] == record;
    assert key in order;
    var k :| 0 <= k < |order| && order[k] == key;
    moved := MovedLast(order, k);
    MovedIsOrder(core, order, k);
    VisitedLastWins(core, order, k, identity);
    forall other | other != identity
      ensures BestRemAnnounce(core, moved, other) == BestRemAnnounce(core, order, other)
    {
      OthersDoNotCare(core, order, k, other);
    }
  }

  lemma KeptOne(core: Core, key: string, keep: Announce -> bool)
    requires key in core.announces
    ensures Kept(core, [key], keep) == if keep(core.announces[key]) then [core.announces[key]] else []
  {
    assert [key][1..] == [];
  }

  lemma VisitedLastWins(core: Core, order: seq<string>, k: nat, identity: string)
    requires IsOrder(order, core) && k < |order| && Greatest(core, identity, core.announces[order[k]])
    ensures BestRemAnnounce(core, MovedLast(order, k), identity) == Some(core.announces[order[k]])
  {
    hide Eligible, RankLe, RemRank;
    var record := core.announces[order[k]];
    var keep := (r: Announce) => Eligible(r, identity);
    var others := order[..k] + order[k + 1..];
    KeptJoins(core, others, [order[k]], keep);
    KeptOne(core, order[k], keep);
    var kept := Kept(core, others, keep);
    assert (kept + [record])[..|kept|] == kept;
    MaxIsGreatest(kept, RemRank);
    KeptAre(core, others, keep);
    assert forall x | x in kept :: RankLe(RemRank(x), RemRank(record));
  }

  lemma OthersDoNotCare(core: Core, order: seq<string>, k: nat, other: string)
    requires IsOrder(order, core) && k < |order| && !Eligible(core.announces[order[k]], other)
    ensures BestRemAnnounce(core, MovedLast(order, k), other) == BestRemAnnounce(core, order, other)
  {
    hide Eligible, MaxByKey;
    var keep := (r: Announce) => Eligible(r, other);
    var front, one, back := order[..k], [order[k]], order[k + 1..];
    KeptOne(core, order[k], keep);
    KeptJoins(core, front + back, one, keep);
    KeptJoins(core, front, back, keep);
    KeptJoins(core, front, one + back, keep);
    KeptJoins(core, one, back, keep);
    assert order == front + (one + back);
    assert Kept(core, MovedLast(order, k), keep) == Kept(core, front, keep) + Kept(core, back, keep);
    assert Kept(core, order, keep) == Kept(core, front, keep) + Kept(core, back, keep);
  }

  // ---- the requester does not depend on the order ------------------------------------------------------------------

  lemma AnnounceOfNames(core: Core, order: seq<string>, id: string)
    requires IsOrder(order, core)
    ensures var record := AnnounceOf(core, order, id);
            && (record.Some? ==> record.value.announcedIdentityHash == Some(id))
            && (record.Some? <==> exists key | key in core.announces :: core.announces[key].announcedIdentityHash == Some(id))
  {
    hide RankLe, AnnounceRank;
    var keep := (record: Announce) => record.announcedIdentityHash == Some(id);
    var kept := Kept(core, order, keep);
    KeptAre(core, order, keep);
    MaxIsGreatest(kept, AnnounceRank);
    forall key | key in core.announces && keep(core.announces[key]) ensures core.announces[key] in kept {
      assert key in order;
    }
  }

  lemma CanonicalIgnoresOrder(core: Core, o1: seq<string>, o2: seq<string>, source: string)
    requires IsOrder(o1, core) && IsOrder(o2, core)
    ensures CanonicalIdentity(core, o1, source) == CanonicalIdentity(core, o2, source)
  {
    hide AnnounceOf, Normalize;
    NormalizeIsIdempotent(source);
    var id := Normalize(source);
    if id.Some? {
      AnnounceOfNames(core, o1, id.value);
      AnnounceOfNames(core, o2, id.value);
    }
  }

  // ---- the list depends on the order exactly when tied announces disagree -----------------------------------------------

  /** An identity that the directory looks for: of a member of the teams, neither the requester nor barred. */
  ghost predicate Wanted(core: Core, query: Query, identity: string) {
    && (exists key | key in KeysOf(core, query) :: key.identity == identity)
    && query.requesterIdentity != Some(identity) && !Barred(core, identity)
  }

  /** Announces that could each be chosen for a wanted identity lead to the same place. */
  ghost predicate TiesAgree(core: Core, query: Query) {
    forall identity, r1, r2 | Wanted(core, query, identity) && Greatest(core, identity, r1) && Greatest(core, identity, r2) ::
      RouteOf(core, query, identity, r1) == RouteOf(core, query, identity, r2)
  }

  /** No two eligible announces of an identity have the same rank. */
  ghost predicate NoTies(core: Core) {
    forall k1, k2, identity ::
      k1 in core.announces && k2 in core.announces && k1 != k2
      && Eligible(core.announces[k1], identity) && Eligible(core.announces[k2], identity)
      ==> RemRank(core.announces[k1]) != RemRank(core.announces[k2])
  }

  /** Without ties there is nothing to agree on. */
  lemma WithoutTiesTheyAgree(core: Core, query: Query)
    requires NoTies(core)
    ensures TiesAgree(core, query)
  {
    hide Eligible, RemRank, Wanted;
    forall identity, r1, r2 | Greatest(core, identity, r1) && Greatest(core, identity, r2) ensures r1 == r2 {
      var k1 :| k1 in core.announces && core.announces[k1] == r1;
      var k2 :| k2 in core.announces && core.announces[k2] == r2;
      assert RankLe(RemRank(r1), RemRank(r2)) && RankLe(RemRank(r2), RemRank(r1));
    }
  }

  lemma AgreementFixesDirectory(core: Core, o1: seq<string>, o2: seq<string>, query: Query)
    requires IsOrder(o1, core) && IsOrder(o2, core) && TiesAgree(core, query)
    ensures Directory(core, o1, query) == Directory(core, o2, query)
  {
    hide KeysOf, RouteOf, Eligible, RankLe, BestRemAnnounce, Sorted, Barred;
    forall key | key in KeysOf(core, query)
      ensures Route(core, o1, query, key.identity) == Route(core, o2, query, key.identity)
    {
      BestIsGreatest(core, o1, key.identity);
      BestIsGreatest(core, o2, key.identity);
    }
    SameRoutesSameRows(KeysOf(core, query), Routes(core, o1, query), Routes(core, o2, query));
  }

  lemma DisagreementShows(core: Core, order: seq<string>, query: Query) returns (other: seq<string>)
    requires IsOrder(order, core) && !TiesAgree(core, query)
    ensures IsOrder(other, core)
    ensures Destinations(Directory(core, other, query)) != Destinations(Directory(core, order, query))
  {
    hide KeysOf, Greatest, RouteOf, BestRemAnnounce, Sorted;
    var identity, r1, r2 :| Wanted(core, query, identity) && Greatest(core, identity, r1) && Greatest(core, identity, r2)
                            && RouteOf(core, query, identity, r1) != RouteOf(core, query, identity, r2);
    var o1 := AnyGreatestCanWin(core, order, identity, r1);
    var o2 := AnyGreatestCanWin(core, order, identity, r2);
    var key :| key in KeysOf(core, query) && key.identity == identity;
    DifferentRoutesShow(KeysOf(core, query), Routes(core, o1, query), Routes(core, o2, query), key);
    other := if Destinations(Directory(core, o1, query)) != Destinations(Directory(core, order, query)) then o1 else o2;
  }

  /**
   * The routing list is the same for every order in which the announces are visited
   * exactly when nothing is routed at all or tied announces lead to the same place.
   */
  lemma OrderMattersOnlyOnDisagreement(core: Core, order: seq<string>, source: string, teamUid: string)
    requires IsOrder(order, core)
    ensures (forall other | IsOrder(other, core) :: Routing(core, other, source, teamUid) == Routing(core, order, source, teamUid))
            <==> (Allowed(core, order, source, teamUid) ==> TiesAgree(core, QueryOf(core, order, source, teamUid)))
  {
    hide Directory, CanonicalIdentity, Normalize, TiesAgree, HasIdentity;
    var query := QueryOf(core, order, source, teamUid);
    forall other | IsOrder(other, core)
      ensures QueryOf(core, other, source, teamUid) == query
      ensures Allowed(core, other, source, teamUid) == Allowed(core, order, source, teamUid)
    {
      CanonicalIgnoresOrder(core, other, order, source);
    }
    if Allowed(core, order, source, teamUid) {
      if TiesAgree(core, query) {
        forall other | IsOrder(other, core) ensures Routing(core, other, source, teamUid) == Routing(core, order, source, teamUid) {
          AgreementFixesDirectory(core, other, order, query);
        }
      } else {
        var other := DisagreementShows(core, order, query);
        assert Routing(core, other, source, teamUid) != Routing(core, order, source, teamUid);
      }
    }
  }

  /** Without ties there is one list, whatever the order. */
  lemma OneListWithoutTies(core: Core, order: seq<string>, other: seq<string>, source: string, teamUid: string)
    requires IsOrder(order, core) && IsOrder(other, core) && NoTies(core)
    ensures Routing(core, other, source, teamUid) == Routing(core, order, source, teamUid)
  {
    hide *;
    WithoutTiesTheyAgree(core, QueryOf(core, order, source, teamUid));
    OrderMattersOnlyOnDisagreement(core, order, source, teamUid);
  }

  /** Exactly who is routed to: the members of the caller's team, through their announces, except the caller and the barred. */
  lemma RoutingIsExact(core: Core, order: seq<string>, source: string, teamUid: string, destination: string)
    requires IsOrder(order, core)
    ensures var query := QueryOf(core, order, source, teamUid);
            destination in Routing(core, order, source, teamUid) <==>
            && Allowed(core, order, source, teamUid)
            && exists identity, record ::
                 && Wanted(core, query, identity)
                 && BestRemAnnounce(core, order, identity) == Some(record)
                 && RouteOf(core, query, identity, record) == Some(destination)
  {
    hide CanonicalIdentity, Normalize, Allowed, BestRemAnnounce, RouteOf, Barred, KeysOf, Sorted;
    var query := QueryOf(core, order, source, teamUid);
    var keys, route := KeysOf(core, query), Routes(core, order, query);
    var rows := Sorted(keys, route);
    SortedIsExact(keys, route);
    if Allowed(core, order, source, teamUid) {
      if destination in Destinations(rows) {
        var i :| 0 <= i < |rows| && Destinations(rows)[i] == destination;
        assert rows[i] in rows;
        assert Wanted(core, query, rows[i].key.identity);
      }
      forall key | key in keys && route(key.identity) == Some(destination) ensures destination in Destinations(rows) {
        assert Row(key, destination) in rows;
        var i :| 0 <= i < |rows| && rows[i] == Row(key, destination);
        assert Destinations(rows)[i] == destination;
      }
    }
  }

  // ---- a tie that matters ---------------------------------------------------------------------------------------

  lemma PlainIsNormal(text: string)
    requires text != "" && forall i | 0 <= i < |text| :: 'a' <= text[i] <= 'z'
    ensures Normalize(text) == Some(text) && Trim(text) == text && Lower(text) == text
  {
    TrimTrims(text);
    assert Lower(text) == text;
  }

  const YELLOW: string := "d6b6e188b910d6bdd24d04b7a7ec5444"

  function TiedAnnounce(destination: string): Announce {
    Announce(destination, Some("peer"), false, Some("destination"), ["r3akt", "emergencymessages"], "rem", 0)
  }

  /** Two members; one announced itself from two destinations at the same instant. */
  function TiedCore(): Core {
    Core(map["one" := TiedAnnounce("one"), "two" := TiedAnnounce("two")],
         map["m" := Member("m", Some(YELLOW), "caller", []), "n" := Member("n", Some(YELLOW), "peer", [])],
         {}, map[])
  }

  lemma TiedIsEligible(destination: string)
    ensures Eligible(TiedAnnounce(destination), "peer")
  {
    PlainIsNormal("peer");
    PlainIsNormal("rem");
    hide Normalize, Trim, Lower;
    var capabilities := TiedAnnounce(destination).capabilities;
    assert capabilities[0] == "r3akt" && capabilities[1] == "emergencymessages";
  }

  lemma TiedAreGreatest(destination: string)
    requires destination in TiedCore().announces
    ensures Greatest(TiedCore(), "peer", TiedAnnounce(destination))
  {
    hide Eligible;
    var core := TiedCore();
    forall key | key in core.announces ensures core.announces[key] == TiedAnnounce(key) {
      TiedIsEligible(key);
    }
    TiedIsEligible(destination);
    assert core.announces[destination] == TiedAnnounce(destination);
  }

  lemma TiedCallerIsAllowed(order: seq<string>)
    requires IsOrder(order, TiedCore())
    ensures Allowed(TiedCore(), order, "caller", YELLOW)
    ensures QueryOf(TiedCore(), order, "caller", YELLOW) == Query({YELLOW}, Some("caller"), Some("caller"))
  {
    var core := TiedCore();
    PlainIsNormal("caller");
    hide Normalize, AnnounceOf;
    AnnounceOfNames(core, order, "caller");
    assert CanonicalIdentity(core, order, "caller") == Some("caller");
    assert HasIdentity(core, core.members["m"], "caller");
  }

  lemma TiedPeerIsWanted(query: Query)
    requires query == Query({YELLOW}, Some("caller"), Some("caller"))
    ensures Wanted(TiedCore(), query, "peer")
  {
    var core := TiedCore();
    PlainIsNormal("peer");
    hide Normalize;
    var peer := core.members["n"];
    assert ([peer.rnsIdentity] + peer.clientIdentities)[0] == "peer";
    assert "peer" in MemberIdentities(core, peer);
    assert Brings(core, query, "n", Key(YELLOW, "n", "peer"));
    KeysOfIsExact(core, query);
    assert Key(YELLOW, "n", "peer") in KeysOf(core, query);
  }

  lemma TiedRoutesDiffer(query: Query)
    requires query == Query({YELLOW}, Some("caller"), Some("caller"))
    ensures RouteOf(TiedCore(), query, "peer", TiedAnnounce("one")) != RouteOf(TiedCore(), query, "peer", TiedAnnounce("two"))
  {
    PlainIsNormal("one");
    PlainIsNormal("two");
    hide Normalize;
    assert "one"[0] != "two"[0] && "one"[0] != "caller"[0] && "two"[0] != "caller"[0];
  }

  /** A concrete list that depends on the order of a hash map. */
  lemma TieChangesTheList(order: seq<string>)
    requires IsOrder(order, TiedCore())
    ensures exists other :: IsOrder(other, TiedCore())
                            && Routing(TiedCore(), other, "caller", YELLOW) != Routing(TiedCore(), order, "caller", YELLOW)
  {
    hide Greatest, RouteOf, Wanted, Allowed, QueryOf, Routing, IsOrder;
    var query := Query({YELLOW}, Some("caller"), Some("caller"));
    TiedCallerIsAllowed(order);
    TiedPeerIsWanted(query);
    TiedAreGreatest("one");
    TiedAreGreatest("two");
    TiedRoutesDiffer(query);
    OrderMattersOnlyOnDisagreement(TiedCore(), order, "caller", YELLOW);
  }

  // ---- two ways to belong ------------------------------------------------------------------------------------------------

  /** A caller belongs to a team by an exact link only; a recipient also by one that has to be normalized. */
  lemma MembershipDiffersByRawLinks(core: Core, member: Member, identity: string)
    requires Normalize(identity) == Some(identity)
    ensures identity in MemberIdentities(core, member) <==>
            || HasIdentity(core, member, identity)
            || exists raw: string :: (member.uid, raw) in core.links && Normalize(raw) == Some(identity)
  {
    hide Normalize;
    if identity in MemberIdentities(core, member) && !HasIdentity(core, member, identity) {
      var link: (string, string) :| link in core.links && link.0 == member.uid && Normalize(link.1) == Some(identity);
      assert (member.uid, link.1) == link;
    }
    forall raw: string | (member.uid, raw) in core.links && Normalize(raw) == Some(identity)
      ensures identity in MemberIdentities(core, member)
    {
      var link := (member.uid, raw);
      assert link in core.links && link.0 == member.uid;
    }
    if (member.uid, identity) in core.links {
      var link := (member.uid, identity);
      assert link in core.links && link.0 == member.uid && Normalize(link.1) == Some(identity);
    }
  }
}
