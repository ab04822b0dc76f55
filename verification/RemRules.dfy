/**
 * The rules of REM routing in full, without the functions that the routing code is made
 * of: who may ask, who is reached, through which announce, and in what order.
 */
module RemRules {
  import opened Wrappers
  import opened Text
  import opened RemRouting

  /** The identity of a caller: what its own announce names, if there is one under its hash, or the hash itself. */
  ghost predicate SpeaksFor(core: Core, source: string, caller: string) {
    var hash := Normalize(source);
    hash.Some? &&
    if hash.value in core.announces
       && core.announces[hash.value].announcedIdentityHash.Some?
       && Normalize(core.announces[hash.value].announcedIdentityHash.value).Some?
    then Normalize(core.announces[hash.value].announcedIdentityHash.value) == Some(caller)
    else caller == hash.value
  }

  /** A caller belongs to a member by its identity, by a client identity, or by an exact link. */
  ghost predicate Belongs(core: Core, member: Member, caller: string) {
    || Normalize(member.rnsIdentity) == Some(caller)
    || (exists i | 0 <= i < |member.clientIdentities| :: Normalize(member.clientIdentities[i]) == Some(caller))
    || (member.uid, caller) in core.links
  }

  /** An identity is reached through a member likewise, but links are normalized. */
  ghost predicate Reached(core: Core, member: Member, identity: string) {
    || Normalize(member.rnsIdentity) == Some(identity)
    || (exists i | 0 <= i < |member.clientIdentities| :: Normalize(member.clientIdentities[i]) == Some(identity))
    || (exists raw: string :: (member.uid, raw) in core.links && Normalize(raw) == Some(identity))
  }

  ghost predicate ShutOut(core: Core, hash: string) {
    exists state | state in core.states.Values :: hash in core.states && core.states[hash] == state
                                                  && (state.isBanned || state.isBlackholed)
  }

  /** An announce by which an identity can be reached. */
  ghost predicate Announces(record: Announce, identity: string) {
    && (if record.announcedIdentityHash.Some? && Normalize(record.announcedIdentityHash.value).Some?
        then Normalize(record.announcedIdentityHash.value) == Some(identity)
        else Normalize(record.destinationHash) == Some(identity))
    && Lower(Trim(record.clientType)) == "rem"
    && "r3akt" in record.capabilities && "emergencymessages" in record.capabilities
  }

  /** The destination's own announces come first, and among equals the latest. */
  ghost predicate Preferred(core: Core, identity: string, record: Announce) {
    && record in core.announces.Values && Announces(record, identity)
    && forall other | other in core.announces.Values && Announces(other, identity) :: NotBehind(record, other)
  }

  predicate NotBehind(a: Announce, b: Announce) {
    && (b.sourceInterface == Some("destination") ==> a.sourceInterface == Some("destination"))
    && ((b.sourceInterface == Some("destination") <==> a.sourceInterface == Some("destination")) ==> b.lastSeen <= a.lastSeen)
  }

  lemma RemRanksAre(a: Announce, b: Announce)
    ensures RankLe(RemRank(b), RemRank(a)) <==> NotBehind(a, b)
  {
  }

  lemma EligibleAnnounces(record: Announce, identity: string)
    ensures Eligible(record, identity) <==> Announces(record, identity)
  {
    hide Normalize, Trim;
    assert Lower("rem") == "rem";
  }

  /** The code's choice among announces is one of the preferred; there is none only if none can reach the identity. */
  lemma ChosenIsPreferred(core: Core, order: seq<string>, identity: string)
    requires IsOrder(order, core)
    ensures var best := BestRemAnnounce(core, order, identity);
            && (best.Some? ==> Preferred(core, identity, best.value))
            && (best.None? ==> forall record | record in core.announces.Values :: !Announces(record, identity))
  {
    BestIsGreatest(core, order, identity);
    forall record: Announce ensures Eligible(record, identity) <==> Announces(record, identity) {
      EligibleAnnounces(record, identity);
    }
    forall a: Announce, b: Announce ensures RankLe(RemRank(b), RemRank(a)) <==> NotBehind(a, b) { RemRanksAre(a, b); }
    hide Eligible, Announces, BestRemAnnounce, RankLe, RemRank, NotBehind;
  }

  /** What the tie theorems call greatest is preferred, and the other way round. */
  lemma GreatestIsPreferred(core: Core, identity: string, record: Announce)
    ensures Greatest(core, identity, record) <==> Preferred(core, identity, record)
  {
    forall r: Announce ensures Eligible(r, identity) <==> Announces(r, identity) {
      EligibleAnnounces(r, identity);
    }
    forall a: Announce, b: Announce ensures RankLe(RemRank(b), RemRank(a)) <==> NotBehind(a, b) { RemRanksAre(a, b); }
    hide Eligible, Announces, RankLe, RemRank, NotBehind;
  }

  /** Among the announces that name an identity: its own first, then those with a display name, then the latest. */
  ghost predicate Foremost(core: Core, id: string, record: Announce) {
    && record in core.announces.Values && record.announcedIdentityHash == Some(id)
    && forall other | other in core.announces.Values && other.announcedIdentityHash == Some(id) ::
         Outranks(record, other)
  }

  predicate Outranks(a: Announce, b: Announce) {
    if (a.sourceInterface == Some("identity")) != (b.sourceInterface == Some("identity"))
    then a.sourceInterface == Some("identity")
    else if a.hasDisplayName != b.hasDisplayName then a.hasDisplayName
    else b.lastSeen <= a.lastSeen
  }

  lemma NamingIsForemost(core: Core, order: seq<string>, id: string)
    requires IsOrder(order, core)
    ensures var named := AnnounceOf(core, order, id);
            && (named.Some? ==> Foremost(core, id, named.value))
            && (named.None? ==> forall record | record in core.announces.Values :: record.announcedIdentityHash != Some(id))
  {
    var keep := (record: Announce) => record.announcedIdentityHash == Some(id);
    var kept := Kept(core, order, keep);
    KeptAre(core, order, keep);
    MaxIsGreatest(kept, AnnounceRank);
    forall key | key in core.announces && keep(core.announces[key]) ensures core.announces[key] in kept {
      assert key in order;
    }
    forall a: Announce, b: Announce ensures RankLe(AnnounceRank(b), AnnounceRank(a)) <==> Outranks(a, b) {
      RanksAre(a, b);
    }
    hide Kept, MaxByKey, RankLe, AnnounceRank, Outranks;
  }

  lemma RanksAre(a: Announce, b: Announce)
    ensures RankLe(AnnounceRank(b), AnnounceRank(a)) <==> Outranks(a, b)
  {
  }

  /** The caller's identity does not even depend on which announce names it. */
  lemma CallerIsCanonical(core: Core, order: seq<string>, source: string, caller: string)
    requires IsOrder(order, core)
    ensures CanonicalIdentity(core, order, source) == Some(caller) <==> SpeaksFor(core, source, caller)
  {
    hide AnnounceOf, Normalize;
    NormalizeIsIdempotent(source);
    var hash := Normalize(source);
    if hash.Some? {
      AnnounceOfNames(core, order, hash.value);
    }
  }

  lemma BelongingIsHavingIdentity(core: Core, member: Member, caller: string)
    ensures HasIdentity(core, member, caller) <==> Belongs(core, member, caller)
  {
    hide Normalize;
  }

  lemma ReachedAreMemberIdentities(core: Core, member: Member, identity: string)
    ensures identity in MemberIdentities(core, member) <==> Reached(core, member, identity)
  {
    hide Normalize;
    var texts := [member.rnsIdentity] + member.clientIdentities;
    forall i | 0 <= i < |member.clientIdentities| && Normalize(member.clientIdentities[i]) == Some(identity)
      ensures identity in MemberIdentities(core, member)
    {
      assert texts[i + 1] == member.clientIdentities[i];
    }
    forall raw: string | (member.uid, raw) in core.links && Normalize(raw) == Some(identity)
      ensures identity in MemberIdentities(core, member)
    {
      var link := (member.uid, raw);
      assert link in core.links && link.0 == member.uid;
    }
    assert texts[0] == member.rnsIdentity;
    if link: (string, string) :| link in core.links && link.0 == member.uid && Normalize(link.1) == Some(identity) {
      assert (member.uid, link.1) in core.links;
    }
  }

  lemma BarredIsShutOut(core: Core, hash: string)
    ensures Barred(core, hash) <==> ShutOut(core, hash)
  {
    if hash in core.states {
      assert core.states[hash] in core.states.Values;
    }
  }

  /** Somebody may ask for a team's list exactly as a member of that team, which is a canonical one. */
  lemma OnlyMembersMayAsk(core: Core, order: seq<string>, source: string, teamUid: string)
    requires IsOrder(order, core)
    ensures Allowed(core, order, source, teamUid) <==>
            && teamUid in CANONICAL_TEAMS
            && exists caller, at ::
                 && SpeaksFor(core, source, caller)
                 && at in core.members && core.members[at].teamUid == Some(teamUid)
                 && Belongs(core, core.members[at], caller)
  {
    hide Normalize, CanonicalIdentity, SpeaksFor, HasIdentity, Belongs;
    forall caller: string
      ensures CanonicalIdentity(core, order, source) == Some(caller) <==> SpeaksFor(core, source, caller)
    {
      CallerIsCanonical(core, order, source, caller);
    }
    forall member: Member, caller: string ensures HasIdentity(core, member, caller) <==> Belongs(core, member, caller) {
      BelongingIsHavingIdentity(core, member, caller);
    }
  }

  /** A stranger gets nothing. */
  lemma StrangersGetNothing(core: Core, order: seq<string>, source: string, teamUid: string)
    requires IsOrder(order, core)
    requires forall caller, at | SpeaksFor(core, source, caller) && at in core.members
                                 && core.members[at].teamUid == Some(teamUid) :: !Belongs(core, core.members[at], caller)
    ensures Routing(core, order, source, teamUid) == []
  {
    OnlyMembersMayAsk(core, order, source, teamUid);
    hide Allowed, SpeaksFor, Belongs, Directory;
  }

  lemma WantedIsReached(core: Core, query: Query, identity: string)
    ensures Wanted(core, query, identity) <==>
            && (exists at | at in core.members ::
                  InTeams(core.members[at], query) && Reached(core, core.members[at], identity))
            && query.requesterIdentity != Some(identity) && !ShutOut(core, identity)
  {
    KeysOfIsExact(core, query);
    BarredIsShutOut(core, identity);
    forall member: Member ensures identity in MemberIdentities(core, member) <==> Reached(core, member, identity) {
      ReachedAreMemberIdentities(core, member, identity);
    }
    hide KeysOf, Barred, ShutOut, MemberIdentities, Reached, InTeams;
    forall at | at in core.members && InTeams(core.members[at], query) && Reached(core, core.members[at], identity)
      ensures exists key | key in KeysOf(core, query) :: key.identity == identity
    {
      assert Brings(core, query, at, KeyAt(core, query, at, identity));
    }
  }

  /** Where an announce of an identity leads. */
  ghost predicate LeadsTo(record: Announce, identity: string, destination: string) {
    destination == match Normalize(record.destinationHash) { case Some(hash) => hash case None => identity }
  }

  /** The caller belongs to some member of the team. */
  ghost predicate MayAsk(core: Core, teamUid: string, caller: string) {
    exists at | at in core.members :: core.members[at].teamUid == Some(teamUid) && Belongs(core, core.members[at], caller)
  }

  /** An identity of some member of the team, not the caller's and not shut out. */
  ghost predicate InTeam(core: Core, teamUid: string, caller: string, identity: string) {
    && (exists at | at in core.members :: core.members[at].teamUid == Some(teamUid) && Reached(core, core.members[at], identity))
    && identity != caller && !ShutOut(core, identity)
  }

  lemma WantedIsInTeam(core: Core, query: Query, teamUid: string, caller: string, identity: string)
    requires teamUid in CANONICAL_TEAMS && query.teamUids == {teamUid} && query.requesterIdentity == Some(caller)
    ensures Wanted(core, query, identity) <==> InTeam(core, teamUid, caller, identity)
  {
    WantedIsReached(core, query, identity);
    hide Wanted, ShutOut, Reached;
    forall at | at in core.members ensures InTeams(core.members[at], query) <==> core.members[at].teamUid == Some(teamUid) {}
  }

  lemma RouteLeads(core: Core, query: Query, identity: string, record: Announce, destination: string)
    ensures RouteOf(core, query, identity, record) == Some(destination) <==>
            LeadsTo(record, identity, destination)
            && query.requesterDestination != Some(destination) && !ShutOut(core, destination)
  {
    BarredIsShutOut(core, destination);
    hide ShutOut, Barred, Normalize;
  }

  /**
   * A destination is in the list exactly when the caller belongs to the canonical team and the destination is
   * where the chosen announce of some identity leads: an identity of a member of the team, not the caller's,
   * not shut out, and a destination neither the caller's own nor shut out.
   */
  lemma ListIsExact(core: Core, order: seq<string>, source: string, teamUid: string, destination: string)
    requires IsOrder(order, core)
    ensures destination in Routing(core, order, source, teamUid) <==>
            && teamUid in CANONICAL_TEAMS
            && exists caller, identity, record ::
                 && SpeaksFor(core, source, caller) && MayAsk(core, teamUid, caller)
                 && InTeam(core, teamUid, caller, identity)
                 && BestRemAnnounce(core, order, identity) == Some(record)
                 && LeadsTo(record, identity, destination)
                 && Normalize(source) != Some(destination) && !ShutOut(core, destination)
  {
    var query := QueryOf(core, order, source, teamUid);
    assert query.teamUids == {teamUid} && query.requesterDestination == Normalize(source);
    assert query.requesterIdentity == CanonicalIdentity(core, order, source);
    RoutingIsExact(core, order, source, teamUid, destination);
    AskersAreCallers(core, order, source, teamUid);
    hide *;
    forall caller: string | SpeaksFor(core, source, caller) ensures query.requesterIdentity == Some(caller) {
      CallerIsCanonical(core, order, source, caller);
    }
    forall caller: string, identity: string | SpeaksFor(core, source, caller) && teamUid in CANONICAL_TEAMS
      ensures Wanted(core, query, identity) <==> InTeam(core, teamUid, caller, identity)
    {
      WantedIsInTeam(core, query, teamUid, caller, identity);
    }
    forall identity: string, record: Announce
      ensures RouteOf(core, query, identity, record) == Some(destination) <==>
              LeadsTo(record, identity, destination)
              && query.requesterDestination != Some(destination) && !ShutOut(core, destination)
    {
      RouteLeads(core, query, identity, record, destination);
    }
  }

  /** A member of a wanted, canonical team brings the row: its team, its uid, and one of its identities. */
  ghost predicate BringsRow(core: Core, query: Query, at: string, key: Key) {
    && at in core.members && core.members[at].teamUid == Some(key.teamUid) && core.members[at].uid == key.memberUid
    && key.teamUid in query.teamUids && key.teamUid in CANONICAL_TEAMS
    && Reached(core, core.members[at], key.identity)
  }

  /** The directory for any query, row by row. */
  lemma DirectoryIsExact(core: Core, order: seq<string>, query: Query, row: Row)
    ensures row in Directory(core, order, query) <==>
            && (exists at :: BringsRow(core, query, at, row.key))
            && query.requesterIdentity != Some(row.key.identity) && !ShutOut(core, row.key.identity)
            && (exists record ::
                  BestRemAnnounce(core, order, row.key.identity) == Some(record)
                  && LeadsTo(record, row.key.identity, row.destination))
            && query.requesterDestination != Some(row.destination) && !ShutOut(core, row.destination)
  {
    hide *;
    DirectoryRows(core, order, query, row);
    KeysOfIsExact(core, query);
    RouteIs(core, order, query, row.key.identity, row.destination);
    forall at ensures Brings(core, query, at, row.key) <==> BringsRow(core, query, at, row.key) {
      BringingIs(core, query, at, row.key);
    }
  }

  lemma DirectoryRows(core: Core, order: seq<string>, query: Query, row: Row)
    ensures row in Directory(core, order, query) <==>
            row.key in KeysOf(core, query) && Route(core, order, query, row.key.identity) == Some(row.destination)
  {
    SortedIsExact(KeysOf(core, query), Routes(core, order, query));
    hide KeysOf, Route, Sorted;
  }

  lemma BringingIs(core: Core, query: Query, at: string, key: Key)
    ensures Brings(core, query, at, key) <==> BringsRow(core, query, at, key)
  {
    if at in core.members { ReachedAreMemberIdentities(core, core.members[at], key.identity); }
    hide MemberIdentities, Reached;
  }

  lemma RouteIs(core: Core, order: seq<string>, query: Query, identity: string, destination: string)
    ensures Route(core, order, query, identity) == Some(destination) <==>
            && query.requesterIdentity != Some(identity) && !ShutOut(core, identity)
            && (exists record ::
                  BestRemAnnounce(core, order, identity) == Some(record) && LeadsTo(record, identity, destination))
            && query.requesterDestination != Some(destination) && !ShutOut(core, destination)
  {
    BarredIsShutOut(core, identity);
    var best := BestRemAnnounce(core, order, identity);
    if best.Some? { RouteLeads(core, query, identity, best.value, destination); }
    hide BestRemAnnounce, Barred, ShutOut, LeadsTo, RouteOf;
  }

  lemma AskersAreCallers(core: Core, order: seq<string>, source: string, teamUid: string)
    requires IsOrder(order, core)
    ensures Allowed(core, order, source, teamUid) <==>
            teamUid in CANONICAL_TEAMS && exists caller :: SpeaksFor(core, source, caller) && MayAsk(core, teamUid, caller)
  {
    OnlyMembersMayAsk(core, order, source, teamUid);
    hide Allowed, SpeaksFor, Belongs;
  }

  // ---- the order of the list ------------------------------------------------------------------------------

  /** At the first difference `a` ends or has the smaller character. */
  ghost predicate Before(a: string, b: string) {
    exists i :: 0 <= i <= |a| && i < |b| && a[..i] == b[..i] && (i == |a| || a[i] < b[i])
  }

  lemma {:induction false} TextLessIsBefore(a: string, b: string)
    ensures TextLess(a, b) <==> Before(a, b)
  {
    if a != "" && b != "" && a[0] == b[0] {
      TextLessIsBefore(a[1..], b[1..]);
      if Before(a[1..], b[1..]) {
        var i :| 0 <= i <= |a[1..]| && i < |b[1..]| && a[1..][..i] == b[1..][..i] && (i == |a[1..]| || a[1..][i] < b[1..][i]);
        assert a[..i + 1] == [a[0]] + a[1..][..i] && b[..i + 1] == [b[0]] + b[1..][..i];
        assert Before(a, b);
      }
      if Before(a, b) {
        var i :| 0 <= i <= |a| && i < |b| && a[..i] == b[..i] && (i == |a| || a[i] < b[i]);
        assert a[1..][..i - 1] == a[..i][1..] && b[1..][..i - 1] == b[..i][1..];
      }
    } else {
      BeforeAtTheStart(a, b);
      if TextLess(a, b) {
        assert a[..0] == b[..0];
      }
    }
  }

  lemma BeforeAtTheStart(a: string, b: string)
    ensures Before(a, b) ==> b != "" && (a == "" || a[0] <= b[0])
  {
    if i :| 0 <= i <= |a| && i < |b| && a[..i] == b[..i] && (i == |a| || a[i] < b[i]) {
      if i > 0 { assert a[..i][0] == b[..i][0]; }
    }
  }

  /** The destinations stand in the order of member and identity, one for each pair that is routed. */
  lemma ListIsInOrder(core: Core, order: seq<string>, source: string, teamUid: string) returns (rows: seq<Row>)
    ensures Allowed(core, order, source, teamUid) ==>
              && Routing(core, order, source, teamUid) == Destinations(rows)
              && (forall i, j | 0 <= i < j < |rows| ::
                    var a, b := rows[i].key, rows[j].key;
                    Before(a.memberUid, b.memberUid) || (a.memberUid == b.memberUid && Before(a.identity, b.identity)))
              && (forall row :: row in rows <==>
                    IsRow(KeysOf(core, QueryOf(core, order, source, teamUid)),
                          Routes(core, order, QueryOf(core, order, source, teamUid)), row))
  {
    var query := QueryOf(core, order, source, teamUid);
    rows := Directory(core, order, query);
    SortedIsExact(KeysOf(core, query), Routes(core, order, query));
    KeysOfIsExact(core, query);
    hide Sorted, KeysOf, Allowed, CanonicalIdentity, TextLess, Before;
    forall i, j | 0 <= i < j < |rows|
      ensures var a, b := rows[i].key, rows[j].key;
              Before(a.memberUid, b.memberUid) || (a.memberUid == b.memberUid && Before(a.identity, b.identity))
    {
      var a, b := rows[i].key, rows[j].key;
      assert rows[i] in rows && rows[j] in rows;
      assert a.teamUid == teamUid == b.teamUid;
      TextLessIsTotal(teamUid, teamUid);
      TextLessIsBefore(a.memberUid, b.memberUid);
      TextLessIsBefore(a.identity, b.identity);
    }
  }
}
