/** The earlier card store, the `databaseService` object: tables `groups`
    and `cards` with plain create/read/update/delete, every operation
    refused with 'Database not initialized' until `init` has connected. */
module DatabaseService {
  import opened Rows

  datatype GroupRow = GroupRow(groupId: int, groupName: string)

  datatype CardRow = CardRow(
    cardId: int,
    groupId: int,
    question: string,
    answer: string,
    createdAt: int,
    lastReviewedAt: int)

  /** One element of the result of `getGroupsWithCards`. */
  datatype GroupWithCards = GroupWithCards(groupId: int, groupName: string, cards: seq<CardRow>)

  datatype DbError = NotInitialized | ForeignKeyViolation

  datatype Result<T> = Ok(value: T) | Err(error: DbError)

  predicate HasGroupId(gs: seq<GroupRow>, id: int) {
    exists g :: g in gs && g.groupId == id
  }

  predicate HasCardId(cs: seq<CardRow>, id: int) {
    exists c :: c in cs && c.cardId == id
  }

  /** `SELECT * FROM cards WHERE group_id = ?`. */
  function CardsOfGroup(cs: seq<CardRow>, groupId: int): (r: seq<CardRow>)
    ensures forall c :: c in r <==> c in cs && c.groupId == groupId
  {
    Where(cs, (c: CardRow) => c.groupId == groupId)
  }

  /** The entry `getGroupsWithCards` builds for one group. */
  function Entry(g: GroupRow, cs: seq<CardRow>): GroupWithCards {
    GroupWithCards(g.groupId, g.groupName, CardsOfGroup(cs, g.groupId))
  }

  /** What `getGroupsWithCards` returns: one entry per group, in table order. */
  function GroupsWithCards(gs: seq<GroupRow>, cs: seq<CardRow>): (r: seq<GroupWithCards>)
    ensures |r| == |gs|
    ensures forall i :: 0 <= i < |gs| ==>
      && r[i].groupId == gs[i].groupId && r[i].groupName == gs[i].groupName
      && forall c :: c in r[i].cards <==> c in cs && c.groupId == gs[i].groupId
  {
    seq(|gs|, i requires 0 <= i < |gs| => Entry(gs[i], cs))
  }

  /** The grouping splits the cards by `group_id`: each entry holds exactly the
      cards of its group, a card appears in an entry exactly when its group
      exists, and (group ids being unique) in one entry only. */
  lemma GroupsWithCardsPartition(gs: seq<GroupRow>, cs: seq<CardRow>)
    requires UniqueBy(gs, (g: GroupRow) => g.groupId)
    ensures var r := GroupsWithCards(gs, cs);
      && |r| == |gs|
      && (forall i :: 0 <= i < |r| ==>
            && r[i].groupId == gs[i].groupId && r[i].groupName == gs[i].groupName
            && forall c :: c in r[i].cards <==> c in cs && c.groupId == gs[i].groupId)
      && (forall c :: c in cs ==> ((exists i :: 0 <= i < |r| && c in r[i].cards) <==> HasGroupId(gs, c.groupId)))
      && (forall c, i, j :: 0 <= i < |r| && 0 <= j < |r| && c in r[i].cards && c in r[j].cards ==> i == j)
  {
  }

  /** What `getGroupsWithCards` returns when each group's query sees its own
      state of `cards`: `seen[i]` is the table as the query for `gs[i]` found it. */
  function GroupingAcrossWrites(gs: seq<GroupRow>, seen: seq<seq<CardRow>>): (r: seq<GroupWithCards>)
    requires |seen| == |gs|
    ensures |r| == |gs|
    ensures forall i :: 0 <= i < |gs| ==> forall c :: c in r[i].cards <==> c in seen[i] && c.groupId == gs[i].groupId
  {
    seq(|gs|, i requires 0 <= i < |gs| => Entry(gs[i], seen[i]))
  }

  /** When every query sees the same table, the grouping is `GroupsWithCards`. */
  lemma SnapshotGrouping(gs: seq<GroupRow>, cs: seq<CardRow>)
    ensures GroupingAcrossWrites(gs, seq(|gs|, _ => cs)) == GroupsWithCards(gs, cs)
  {
  }

  /** A card moved from the second group to the first after the first group's
      query has returned, and before the second's runs, is in no entry,
      although its group exists. */
  lemma MoveDuringGroupingLosesCard(g1: GroupRow, g2: GroupRow, c: CardRow)
    requires g1.groupId != g2.groupId && c.groupId == g2.groupId
    ensures var moved := c.(groupId := g1.groupId);
      var r := GroupingAcrossWrites([g1, g2], [[c], [moved]]);
      && HasGroupId([g1, g2], moved.groupId)
      && forall i, e :: 0 <= i < |r| && e in r[i].cards ==> e.cardId != c.cardId
  {
    assert g1 in [g1, g2];
  }

  /** A selection by a unique id matches one row or none. */
  lemma MatchCount(cs: seq<CardRow>, id: int)
    requires UniqueBy(cs, (c: CardRow) => c.cardId)
    ensures |Where(cs, (c: CardRow) => c.cardId == id)| == if HasCardId(cs, id) then 1 else 0
  {
    UniqueByAtMostOne(cs, (c: CardRow) => c.cardId, (c: CardRow) => c.cardId == id);
    if HasCardId(cs, id) {
      var c :| c in cs && c.cardId == id;
      assert c in Where(cs, (c: CardRow) => c.cardId == id);
    }
  }

  /** A group selection by a unique id matches one row or none. */
  lemma GroupMatchCount(gs: seq<GroupRow>, id: int)
    requires UniqueBy(gs, (g: GroupRow) => g.groupId)
    ensures |Where(gs, (g: GroupRow) => g.groupId == id)| == if HasGroupId(gs, id) then 1 else 0
  {
    UniqueByAtMostOne(gs, (g: GroupRow) => g.groupId, (g: GroupRow) => g.groupId == id);
    if HasGroupId(gs, id) {
      var g :| g in gs && g.groupId == id;
      assert g in Where(gs, (g: GroupRow) => g.groupId == id);
    }
  }

  class DatabaseService {
    /** Whether the engine enforces `FOREIGN KEY(group_id) REFERENCES groups(group_id)`. */
    const foreignKeys: bool

    /** `this.db` is set. */
    var connected: bool
    var groups: seq<GroupRow>
    var cards: seq<CardRow>
    var groupSeq: int
    var cardSeq: int

    /** Primary keys, AUTOINCREMENT counters above every id, and the foreign
        key when enforced. */
    ghost predicate Valid()
      reads this
    {
      && UniqueBy(groups, (g: GroupRow) => g.groupId)
      && UniqueBy(cards, (c: CardRow) => c.cardId)
      && 0 <= groupSeq && 0 <= cardSeq
      && (forall g :: g in groups ==> 0 < g.groupId <= groupSeq)
      && (forall c :: c in cards ==> 0 < c.cardId <= cardSeq)
      && (foreignKeys ==> forall c :: c in cards ==> HasGroupId(groups, c.groupId))
    }

    constructor (foreignKeys: bool)
      ensures Valid() && !connected && groups == [] && cards == []
      ensures this.foreignKeys == foreignKeys
    {
      this.foreignKeys := foreignKeys;
      connected := false;
      groups, cards, groupSeq, cardSeq := [], [], 0, 0;
    }

    /** `init`: nothing when already connected; on the web platform it returns
        without connecting; otherwise it opens the database (tables are
        created if missing, which keeps existing rows). */
    method Init(platformIsWeb: bool)
      requires Valid()
      modifies this`connected
      ensures Valid()
      ensures connected == (old(connected) || !platformIsWeb)
    {
      if connected {
        return;
      }
      if platformIsWeb {
        return;
      }
      connected := true;
    }

    /** `saveGroup`: add one row with the given name. */
    method SaveGroup(groupName: string) returns (r: Result<nat>)
      requires Valid()
      modifies this
      ensures Valid() && connected == old(connected) && cards == old(cards) && cardSeq == old(cardSeq)
      ensures !connected ==> r == Err(NotInitialized) && groups == old(groups) && groupSeq == old(groupSeq)
      ensures connected ==> r == Ok(1) && groups == old(groups) + [GroupRow(old(groupSeq) + 1, groupName)]
      ensures connected ==> !HasGroupId(old(groups), groups[|groups| - 1].groupId)
    {
      if !connected {
        return Err(NotInitialized);
      }
      groupSeq := groupSeq + 1;
      UniqueBySnoc(groups, GroupRow(groupSeq, groupName), (g: GroupRow) => g.groupId);
      groups := groups + [GroupRow(groupSeq, groupName)];
      r := Ok(1);
    }

    /** `saveCard`: add one row carrying the given values; with foreign keys
        enforced, a card of an unknown group is refused. */
    method SaveCard(groupId: int, question: string, answer: string, createdAt: int, lastReviewedAt: int)
      returns (r: Result<nat>)
      requires Valid()
      modifies this
      ensures Valid() && connected == old(connected) && groups == old(groups) && groupSeq == old(groupSeq)
      ensures !connected ==> r == Err(NotInitialized) && cards == old(cards) && cardSeq == old(cardSeq)
      ensures connected && foreignKeys && !HasGroupId(groups, groupId) ==>
        r == Err(ForeignKeyViolation) && cards == old(cards) && cardSeq == old(cardSeq)
      ensures connected && (!foreignKeys || HasGroupId(groups, groupId)) ==>
        r == Ok(1) && cards == old(cards) + [CardRow(old(cardSeq) + 1, groupId, question, answer, createdAt, lastReviewedAt)]
    {
      if !connected {
        return Err(NotInitialized);
      }
      if foreignKeys && !HasGroupId(groups, groupId) {
        return Err(ForeignKeyViolation);
      }
      cardSeq := cardSeq + 1;
      var row := CardRow(cardSeq, groupId, question, answer, createdAt, lastReviewedAt);
      UniqueBySnoc(cards, row, (c: CardRow) => c.cardId);
      cards := cards + [row];
      r := Ok(1);
    }

    /** `getGroups`: every group row. */
    method GetGroups() returns (r: Result<seq<GroupRow>>)
      ensures r.Err? <==> !connected
      ensures r.Ok? ==> r.value == groups
    {
      if !connected {
        return Err(NotInitialized);
      }
      r := Ok(groups);
    }

    /** `getCards`: every card row. */
    method GetCards() returns (r: Result<seq<CardRow>>)
      ensures r.Err? <==> !connected
      ensures r.Ok? ==> r.value == cards
    {
      if !connected {
        return Err(NotInitialized);
      }
      r := Ok(cards);
    }

    /** `getGroupsWithCards`: for each group, in the order `getGroups` gives,
        an entry with its id, its name and the cards whose `group_id` is its id. */
    method GetGroupsWithCards() returns (r: Result<seq<GroupWithCards>>)
      ensures r.Err? <==> !connected
      ensures r.Ok? ==> |r.value| == |groups|
      ensures r.Ok? ==> forall i :: 0 <= i < |groups| ==>
        && r.value[i].groupId == groups[i].groupId
        && r.value[i].groupName == groups[i].groupName
        && forall c :: c in r.value[i].cards <==> c in cards && c.groupId == groups[i].groupId
      ensures r.Ok? ==> r.value == GroupsWithCards(groups, cards)
    {
      if !connected {
        return Err(NotInitialized);
      }
      var gs := GetGroups();
      var all := gs.value;
      var acc: seq<GroupWithCards> := [];
      for i := 0 to |all|
        invariant acc == GroupsWithCards(all, cards)[..i]
      {
        var matched := CardsOfGroup(cards, all[i].groupId);
        acc := acc + [GroupWithCards(all[i].groupId, all[i].groupName, matched)];
      }
      r := Ok(acc);
    }

    /** `getCardsByGroupId`: exactly the cards whose `group_id` is the given one. */
    method GetCardsByGroupId(groupId: int) returns (r: Result<seq<CardRow>>)
      ensures r.Err? <==> !connected
      ensures r.Ok? ==> forall c :: c in r.value <==> c in cards && c.groupId == groupId
      ensures r.Ok? ==> r.value == CardsOfGroup(cards, groupId)
    {
      if !connected {
        return Err(NotInitialized);
      }
      r := Ok(CardsOfGroup(cards, groupId));
    }

    /** `updateCardLastReviewed`: set `last_reviewed_at` of the card with that id. */
    method UpdateCardLastReviewed(cardId: int, lastReviewedAt: int) returns (r: Result<nat>)
      requires Valid()
      modifies this`cards
      ensures Valid() && (!old(connected) ==> cards == old(cards))
      ensures r.Err? <==> !connected
      ensures r.Ok? ==> r.value == if HasCardId(old(cards), cardId) then 1 else 0
      ensures connected ==> |cards| == |old(cards)| && forall i :: 0 <= i < |cards| ==>
        cards[i] == if old(cards)[i].cardId == cardId then old(cards)[i].(lastReviewedAt := lastReviewedAt) else old(cards)[i]
    {
      if !connected {
        return Err(NotInitialized);
      }
      MatchCount(cards, cardId);
      var n := |Where(cards, (c: CardRow) => c.cardId == cardId)|;
      var sel := (c: CardRow) => c.cardId == cardId;
      var f := (c: CardRow) => c.(lastReviewedAt := lastReviewedAt);
      UpdateKeepsUnique(cards, sel, f, (c: CardRow) => c.cardId);
      cards := Update(cards, sel, f);
      IdsStayBounded(old(cards), cards, cardSeq);
      r := Ok(n);
    }

    /** `updateCard`: set `question` and `answer` of the card with that id. */
    method UpdateCard(cardId: int, question: string, answer: string) returns (r: Result<nat>)
      requires Valid()
      modifies this`cards
      ensures Valid() && (!old(connected) ==> cards == old(cards))
      ensures r.Err? <==> !connected
      ensures r.Ok? ==> r.value == if HasCardId(old(cards), cardId) then 1 else 0
      ensures connected ==> |cards| == |old(cards)| && forall i :: 0 <= i < |cards| ==>
        cards[i] == if old(cards)[i].cardId == cardId then old(cards)[i].(question := question, answer := answer) else old(cards)[i]
    {
      if !connected {
        return Err(NotInitialized);
      }
      MatchCount(cards, cardId);
      var n := |Where(cards, (c: CardRow) => c.cardId == cardId)|;
      var sel := (c: CardRow) => c.cardId == cardId;
      var f := (c: CardRow) => c.(question := question, answer := answer);
      UpdateKeepsUnique(cards, sel, f, (c: CardRow) => c.cardId);
      cards := Update(cards, sel, f);
      IdsStayBounded(old(cards), cards, cardSeq);
      r := Ok(n);
    }

    /** `updateCardGroup`: move the card with that id to another group; with
        foreign keys enforced, a move to an unknown group is refused. */
    method UpdateCardGroup(cardId: int, groupId: int) returns (r: Result<nat>)
      requires Valid()
      modifies this`cards
      ensures Valid() && (r.Err? ==> cards == old(cards))
      ensures r == Err(NotInitialized) <==> !connected
      ensures r == Err(ForeignKeyViolation) <==>
        connected && foreignKeys && HasCardId(old(cards), cardId) && !HasGroupId(groups, groupId)
      ensures r.Ok? ==> r.value == if HasCardId(old(cards), cardId) then 1 else 0
      ensures r.Ok? ==> |cards| == |old(cards)| && forall i :: 0 <= i < |cards| ==>
        cards[i] == if old(cards)[i].cardId == cardId then old(cards)[i].(groupId := groupId) else old(cards)[i]
    {
      if !connected {
        return Err(NotInitialized);
      }
      if foreignKeys && HasCardId(cards, cardId) && !HasGroupId(groups, groupId) {
        return Err(ForeignKeyViolation);
      }
      MatchCount(cards, cardId);
      var n := |Where(cards, (c: CardRow) => c.cardId == cardId)|;
      var sel := (c: CardRow) => c.cardId == cardId;
      var f := (c: CardRow) => c.(groupId := groupId);
      UpdateKeepsUnique(cards, sel, f, (c: CardRow) => c.cardId);
      MoveKeepsRefs(cards, groups, cardId, groupId, foreignKeys);
      cards := Update(cards, sel, f);
      IdsStayBounded(old(cards), cards, cardSeq);
      r := Ok(n);
    }

    /** `updateGroupName`: rename the group with that id. */
    method UpdateGroupName(groupId: int, groupName: string) returns (r: Result<nat>)
      requires Valid()
      modifies this`groups
      ensures Valid() && (!old(connected) ==> groups == old(groups))
      ensures r.Err? <==> !connected
      ensures r.Ok? ==> r.value == if HasGroupId(old(groups), groupId) then 1 else 0
      ensures connected ==> |groups| == |old(groups)| && forall i :: 0 <= i < |groups| ==>
        groups[i] == if old(groups)[i].groupId == groupId then old(groups)[i].(groupName := groupName) else old(groups)[i]
    {
      if !connected {
        return Err(NotInitialized);
      }
      GroupMatchCount(groups, groupId);
      var n := |Where(groups, (g: GroupRow) => g.groupId == groupId)|;
      var sel := (g: GroupRow) => g.groupId == groupId;
      var f := (g: GroupRow) => g.(groupName := groupName);
      UpdateKeepsUnique(groups, sel, f, (g: GroupRow) => g.groupId);
      groups := Update(groups, sel, f);
      GroupIdsKept(old(groups), groups, groupSeq);
      r := Ok(n);
    }

    /** `deleteGroup`: delete the group row only; the statement leaves `cards`
        alone, so with foreign keys enforced a group that still has cards is
        refused, and without them its cards are left behind. */
    method DeleteGroup(groupId: int) returns (r: Result<nat>)
      requires Valid()
      modifies this`groups
      ensures Valid() && (r.Err? ==> groups == old(groups))
      ensures r == Err(NotInitialized) <==> !connected
      ensures r == Err(ForeignKeyViolation) <==>
        connected && foreignKeys && HasGroupId(old(groups), groupId) && exists c :: c in cards && c.groupId == groupId
      ensures r.Ok? ==> r.value == if HasGroupId(old(groups), groupId) then 1 else 0
      ensures r.Ok? ==> forall g :: g in groups <==> g in old(groups) && g.groupId != groupId
    {
      if !connected {
        return Err(NotInitialized);
      }
      if foreignKeys && HasGroupId(groups, groupId) && exists c :: c in cards && c.groupId == groupId {
        return Err(ForeignKeyViolation);
      }
      GroupMatchCount(groups, groupId);
      var n := |Where(groups, (g: GroupRow) => g.groupId == groupId)|;
      WhereKeepsUnique(groups, (g: GroupRow) => g.groupId != groupId, (g: GroupRow) => g.groupId);
      groups := Where(groups, (g: GroupRow) => g.groupId != groupId);
      if foreignKeys {
        forall c | c in cards ensures HasGroupId(groups, c.groupId) {
          var g :| g in old(groups) && g.groupId == c.groupId;
          assert g in groups;
        }
      }
      r := Ok(n);
    }

    /** `deleteCard`: delete the card with that id and nothing else. */
    method DeleteCard(cardId: int) returns (r: Result<nat>)
      requires Valid()
      modifies this`cards
      ensures Valid() && (!old(connected) ==> cards == old(cards))
      ensures r.Err? <==> !connected
      ensures r.Ok? ==> r.value == if HasCardId(old(cards), cardId) then 1 else 0
      ensures r.Ok? ==> forall c :: c in cards <==> c in old(cards) && c.cardId != cardId
    {
      if !connected {
        return Err(NotInitialized);
      }
      MatchCount(cards, cardId);
      var n := |Where(cards, (c: CardRow) => c.cardId == cardId)|;
      WhereKeepsUnique(cards, (c: CardRow) => c.cardId != cardId, (c: CardRow) => c.cardId);
      cards := Where(cards, (c: CardRow) => c.cardId != cardId);
      r := Ok(n);
    }
  }

  /** Moving a card to a group that exists (or with foreign keys not
      enforced) keeps every card's group reference valid. */
  lemma MoveKeepsRefs(cs: seq<CardRow>, gs: seq<GroupRow>, cardId: int, groupId: int, foreignKeys: bool)
    requires foreignKeys ==> forall c :: c in cs ==> HasGroupId(gs, c.groupId)
    requires foreignKeys && HasCardId(cs, cardId) ==> HasGroupId(gs, groupId)
    ensures var after := Update(cs, (c: CardRow) => c.cardId == cardId, (c: CardRow) => c.(groupId := groupId));
      foreignKeys ==> forall c :: c in after ==> HasGroupId(gs, c.groupId)
  {
  }

  /** Rewriting group columns other than the id keeps every id within its
      bound and every id that was present. */
  lemma GroupIdsKept(before: seq<GroupRow>, after: seq<GroupRow>, bound: int)
    requires |before| == |after|
    requires forall i :: 0 <= i < |after| ==> after[i].groupId == before[i].groupId
    requires forall b :: b in before ==> 0 < b.groupId <= bound
    ensures forall g :: g in after ==> 0 < g.groupId <= bound
    ensures forall id :: HasGroupId(before, id) ==> HasGroupId(after, id)
  {
    forall g | g in after ensures 0 < g.groupId <= bound {
      var i :| 0 <= i < |after| && after[i] == g;
      assert before[i] in before;
    }
    forall id | HasGroupId(before, id) ensures HasGroupId(after, id) {
      var b :| b in before && b.groupId == id;
      var i :| 0 <= i < |before| && before[i] == b;
      assert after[i] in after;
    }
  }

  /** Rewriting card columns other than the id keeps every id within its bound. */
  lemma IdsStayBounded(before: seq<CardRow>, after: seq<CardRow>, bound: int)
    requires |before| == |after|
    requires forall i :: 0 <= i < |after| ==> after[i].cardId == before[i].cardId
    requires forall b :: b in before ==> 0 < b.cardId <= bound
    ensures forall c :: c in after ==> 0 < c.cardId <= bound
  {
  }
}
