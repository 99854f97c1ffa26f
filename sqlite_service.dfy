/** The card/group store behind `SqliteService`: one SQLite database file
    with the tables `Group` and `Cards`.

    `Db` is the content of the file (both tables and their AUTOINCREMENT
    counters). Each SQL statement the service issues is a function on `Db`
    that gives the row-set result or the constraint it violates. The class
    `SqliteService` holds the connection flag and the tables and runs those
    statements in the order the service does. */
module SqliteStore {
  import opened Rows

  /** The reserved group, created by `initDB`, never renamed nor deleted. */
  const DefaultGroupName: string := "默认"
  const DefaultGroupDis: string := "默认卡片组"

  /** `saveGroup` inserts only while fewer groups than this exist. */
  const MaxGroups: nat := 16

  datatype Group = Group(groupId: int, groupName: string, groupDis: string)

  datatype Card = Card(
    cardId: int,
    cardHash: string,
    groupId: int,
    question: string,
    answer: string,
    lastReview: int,
    nextReview: int)

  /** The `Group` interface as callers fill it (`group_id?`, `group_dis?`). */
  datatype GroupInput = GroupInput(groupId: Option<int>, groupName: string, groupDis: Option<string>)

  /** The `Cards` interface as callers fill it (`card_id?`, `answer?`, ...). */
  datatype CardInput = CardInput(
    cardId: Option<int>,
    groupId: int,
    question: string,
    answer: Option<string>,
    lastReview: Option<int>,
    nextReview: Option<int>)

  /** The constraint an INSERT or UPDATE violated; the service rethrows it. */
  datatype DbError = UniqueViolation | ForeignKeyViolation

  datatype Result<T> = Ok(value: T) | Err(error: DbError)

  /** The database file: both tables in rowid order and their AUTOINCREMENT counters. */
  datatype Db = Db(groups: seq<Group>, cards: seq<Card>, groupSeq: int, cardSeq: int)

  const EmptyDb: Db := Db([], [], 0, 0)

  /** `cardHash`: a digest of the concatenation `question + answer`. The digest
      (SHA-256 rendered as hex) is a parameter of the model. */
  function CardHash(digest: string -> string, question: string, answer: string): string {
    digest(question + answer)
  }

  /** The hash sees only the concatenation: two cards whose question and answer
      concatenate to the same text have the same hash, whatever the digest. */
  lemma SameTextSameHash(digest: string -> string, q1: string, a1: string, q2: string, a2: string)
    requires q1 + a1 == q2 + a2
    ensures CardHash(digest, q1, a1) == CardHash(digest, q2, a2)
  {
  }

  predicate HasGroupNamed(gs: seq<Group>, name: string) {
    exists g :: g in gs && g.groupName == name
  }

  predicate HasGroupId(gs: seq<Group>, id: int) {
    exists g :: g in gs && g.groupId == id
  }

  predicate HasCardId(cs: seq<Card>, id: int) {
    exists c :: c in cs && c.cardId == id
  }

  predicate HasCardHash(cs: seq<Card>, hash: string) {
    exists c :: c in cs && c.cardHash == hash
  }

  /** The rows of `Group` named `name`. */
  function GroupsNamed(gs: seq<Group>, name: string): seq<Group> {
    Where(gs, (g: Group) => g.groupName == name)
  }

  /** The `Group` table: primary key and `UNIQUE group_name`, the AUTOINCREMENT
      counter above every id, the cap of `saveGroup`, and '默认' once any group exists. */
  ghost predicate GroupsValid(d: Db) {
    && UniqueBy(d.groups, (g: Group) => g.groupId)
    && UniqueBy(d.groups, (g: Group) => g.groupName)
    && 0 <= d.groupSeq
    && (forall g :: g in d.groups ==> 0 < g.groupId <= d.groupSeq)
    && |d.groups| <= MaxGroups
    && (d.groups != [] ==> HasGroupNamed(d.groups, DefaultGroupName))
  }

  /** The `Cards` table: primary key and `UNIQUE card_hash`, the AUTOINCREMENT
      counter above every id, and every hash computed from its card's content. */
  ghost predicate CardsValid(d: Db, digest: string -> string) {
    && UniqueBy(d.cards, (c: Card) => c.cardId)
    && UniqueBy(d.cards, (c: Card) => c.cardHash)
    && 0 <= d.cardSeq
    && (forall c :: c in d.cards ==> 0 < c.cardId <= d.cardSeq)
    && (forall c :: c in d.cards ==> c.cardHash == CardHash(digest, c.question, c.answer))
  }

  /** `FOREIGN KEY (group_id) REFERENCES Group (group_id)`, when the engine enforces it. */
  ghost predicate RefsValid(d: Db, foreignKeys: bool) {
    foreignKeys ==> forall c :: c in d.cards ==> HasGroupId(d.groups, c.groupId)
  }

  /** What the schema and the service together keep true of the file. */
  ghost predicate DbValid(d: Db, digest: string -> string, foreignKeys: bool) {
    GroupsValid(d) && CardsValid(d, digest) && RefsValid(d, foreignKeys)
  }

  // ---------------------------------------------------------------------
  // The statements, as row-set semantics
  // ---------------------------------------------------------------------

  /** `INSERT INTO Group (group_name, group_dis) VALUES (?, ?)`. */
  function InsertGroup(d: Db, name: string, dis: string): (r: Result<Db>)
    ensures r.Ok? <==> !HasGroupNamed(d.groups, name)
    ensures r.Err? ==> r.error == UniqueViolation
  {
    if HasGroupNamed(d.groups, name) then Err(UniqueViolation)
    else Ok(d.(groups := d.groups + [Group(d.groupSeq + 1, name, dis)], groupSeq := d.groupSeq + 1))
  }

  /** `INSERT INTO Cards (card_hash, group_id, ...) VALUES (...)`; the id
      column of `row` is ignored, AUTOINCREMENT assigns it. */
  function InsertCard(d: Db, foreignKeys: bool, row: Card): (r: Result<Db>)
    ensures r.Ok? <==> !HasCardHash(d.cards, row.cardHash) && (!foreignKeys || HasGroupId(d.groups, row.groupId))
    ensures r.Err? ==> (r.error == UniqueViolation <==> HasCardHash(d.cards, row.cardHash))
    ensures r.Ok? ==>
      && r.value.groups == d.groups && |r.value.cards| == |d.cards| + 1
      && r.value.cards[..|d.cards|] == d.cards && r.value.cards[|d.cards|].cardHash == row.cardHash
  {
    if HasCardHash(d.cards, row.cardHash) then Err(UniqueViolation)
    else if foreignKeys && !HasGroupId(d.groups, row.groupId) then Err(ForeignKeyViolation)
    else Ok(d.(cards := d.cards + [row.(cardId := d.cardSeq + 1)], cardSeq := d.cardSeq + 1))
  }

  /** `DELETE FROM Cards WHERE group_id = ?`. */
  function DeleteCardsOfGroup(d: Db, id: int): (e: Db)
    ensures e.groups == d.groups && e.groupSeq == d.groupSeq && e.cardSeq == d.cardSeq
    ensures forall c :: c in e.cards <==> c in d.cards && c.groupId != id
  {
    d.(cards := Where(d.cards, (c: Card) => c.groupId != id))
  }

  /** `DELETE FROM Group WHERE group_id = ? AND group_name <> '默认'`. */
  function DeleteGroupUnlessDefault(d: Db, foreignKeys: bool, id: int): (r: Result<Db>)
    ensures r.Err? <==> foreignKeys && (exists g :: g in d.groups && g.groupId == id && g.groupName != DefaultGroupName)
                        && (exists c :: c in d.cards && c.groupId == id)
    ensures r.Ok? ==>
      && r.value.cards == d.cards
      && forall g :: g in r.value.groups <==> g in d.groups && (g.groupId != id || g.groupName == DefaultGroupName)
  {
    var doomed := (g: Group) => g.groupId == id && g.groupName != DefaultGroupName;
    if foreignKeys && (exists g :: g in d.groups && doomed(g)) && (exists c :: c in d.cards && c.groupId == id)
    then Err(ForeignKeyViolation)
    else Ok(d.(groups := Where(d.groups, (g: Group) => !(g.groupId == id && g.groupName != DefaultGroupName))))
  }

  /** `DELETE FROM Cards WHERE card_id = ?`. */
  function DeleteCard(d: Db, id: int): (e: Db)
    ensures e.groups == d.groups
    ensures forall c :: c in e.cards <==> c in d.cards && c.cardId != id
  {
    d.(cards := Where(d.cards, (c: Card) => c.cardId != id))
  }

  /** `UPDATE Group SET group_name = ?, group_dis = ? WHERE group_id = ? AND group_name != '默认'`;
      an absent `group_id` binds NULL, which no row equals. */
  function UpdateGroupUnlessDefault(d: Db, id: Option<int>, name: string, dis: string): (r: Result<Db>)
    ensures r.Err? ==> r.error == UniqueViolation
    ensures id.None? ==> r == Ok(d)
    ensures r.Ok? ==> r.value.cards == d.cards && |r.value.groups| == |d.groups|
  {
    if id.None? || !(exists g :: g in d.groups && g.groupId == id.value && g.groupName != DefaultGroupName) then Ok(d)
    else if exists g :: g in d.groups && g.groupId != id.value && g.groupName == name then Err(UniqueViolation)
    else Ok(d.(groups := Update(d.groups,
                                (g: Group) => g.groupId == id.value && g.groupName != DefaultGroupName,
                                (g: Group) => g.(groupName := name, groupDis := dis))))
  }

  /** `UPDATE Cards SET card_hash = ?, group_id = ?, ... WHERE card_id = ?`;
      every column but the id is taken from `row`. */
  function UpdateCard(d: Db, foreignKeys: bool, id: int, row: Card): (r: Result<Db>)
    ensures !HasCardId(d.cards, id) ==> r == Ok(d)
    ensures r.Err? ==> (r.error == UniqueViolation <==> exists c :: c in d.cards && c.cardId != id && c.cardHash == row.cardHash)
    ensures r == Err(UniqueViolation) <==>
      HasCardId(d.cards, id) && exists c :: c in d.cards && c.cardId != id && c.cardHash == row.cardHash
    ensures r.Ok? ==> r.value.groups == d.groups && |r.value.cards| == |d.cards|
  {
    if !HasCardId(d.cards, id) then Ok(d)
    else if exists c :: c in d.cards && c.cardId != id && c.cardHash == row.cardHash then Err(UniqueViolation)
    else if foreignKeys && !HasGroupId(d.groups, row.groupId) then Err(ForeignKeyViolation)
    else Ok(d.(cards := Update(d.cards, (c: Card) => c.cardId == id, (c: Card) => row.(cardId := id))))
  }

  /** `SELECT * FROM Group WHERE group_id = ?`. */
  function SelectGroupById(d: Db, id: int): (r: seq<Group>)
    ensures forall g :: g in r <==> g in d.groups && g.groupId == id
  {
    Where(d.groups, (g: Group) => g.groupId == id)
  }

  /** `SELECT * FROM Cards WHERE card_id = ?`. */
  function SelectCardById(d: Db, id: int): (r: seq<Card>)
    ensures forall c :: c in r <==> c in d.cards && c.cardId == id
  {
    Where(d.cards, (c: Card) => c.cardId == id)
  }

  // ---------------------------------------------------------------------
  // The service's operations on the file
  // ---------------------------------------------------------------------

  /** The part of `initDB` that touches the tables: look up '默认' and insert it when missing. */
  function EnsureDefaultGroup(d: Db): (e: Db)
    ensures HasGroupNamed(e.groups, DefaultGroupName)
    ensures e.cards == d.cards && e.cardSeq == d.cardSeq
    ensures |d.groups| <= |e.groups| <= |d.groups| + 1 && e.groups[..|d.groups|] == d.groups
  {
    if HasGroupNamed(d.groups, DefaultGroupName) then d
    else InsertGroup(d, DefaultGroupName, DefaultGroupDis).value
  }

  /** The file as every operation sees it after its leading `initDB` call. */
  function Opened(d: Db, connected: bool): Db {
    if connected then d else EnsureDefaultGroup(d)
  }

  /** The two statements of `dropGroupByID`, in order. */
  function DropGroup(d: Db, foreignKeys: bool, id: int): (r: Result<Db>)
    ensures r.Ok?
    ensures forall c :: c in r.value.cards ==> c.groupId != id
  {
    DeleteGroupUnlessDefault(DeleteCardsOfGroup(d, id), foreignKeys, id)
  }

  /** `dropGroupByID` with a `saveCards` into the same group landing between
      its two DELETEs, as the event loop may run them: the cards' DELETE, the
      card INSERT, then the group's DELETE. */
  function DropGroupAroundInsert(d: Db, foreignKeys: bool, id: int, row: Card): Result<Db> {
    match InsertCard(DeleteCardsOfGroup(d, id), foreignKeys, row)
    case Err(e) => Err(e)
    case Ok(d1) => DeleteGroupUnlessDefault(d1, foreignKeys, id)
  }

  /** A card inserted into a non-reserved group between the two DELETEs makes
      the drop fail when foreign keys are enforced, and otherwise survives it
      with no group left for it to refer to. */
  lemma InsertDuringDropStrandsCard(d: Db, foreignKeys: bool, id: int, row: Card)
    requires UniqueBy(d.groups, (g: Group) => g.groupId)
    requires exists g :: g in d.groups && g.groupId == id && g.groupName != DefaultGroupName
    requires row.groupId == id && !HasCardHash(d.cards, row.cardHash)
    ensures foreignKeys ==> DropGroupAroundInsert(d, foreignKeys, id, row) == Err(ForeignKeyViolation)
    ensures !foreignKeys ==>
      && DropGroupAroundInsert(d, foreignKeys, id, row).Ok?
      && (exists c :: c in DropGroupAroundInsert(d, foreignKeys, id, row).value.cards && c.groupId == id)
      && !HasGroupId(DropGroupAroundInsert(d, foreignKeys, id, row).value.groups, id)
  {
    var d0 := DeleteCardsOfGroup(d, id);
    assert !HasCardHash(d0.cards, row.cardHash);
    var g0 :| g0 in d.groups && g0.groupId == id && g0.groupName != DefaultGroupName;
    assert HasGroupId(d0.groups, id);
    var d1 := InsertCard(d0, foreignKeys, row).value;
    assert d1.cards[|d0.cards|] in d1.cards;
  }

  /** `saveGroup` run to completion: no change at 16 groups, else the insert.
      Starting from at most 16 groups it never ends above 16. */
  function SaveGroupRow(d: Db, name: string, dis: string): (r: Result<Db>)
    ensures |d.groups| >= MaxGroups ==> r == Ok(d)
    ensures |d.groups| < MaxGroups ==> r == InsertGroup(d, name, dis)
    ensures r.Ok? && |d.groups| <= MaxGroups ==> |r.value.groups| <= MaxGroups
  {
    if |d.groups| >= MaxGroups then Ok(d) else InsertGroup(d, name, dis)
  }

  /** A run of `saveGroup` calls, each finishing before the next starts; a
      refused call leaves the file as it was. */
  function SaveGroupsInTurn(d: Db, names: seq<string>): Db
    decreases |names|
  {
    if names == [] then d
    else
      var next := SaveGroupRow(d, names[0], "");
      SaveGroupsInTurn(if next.Ok? then next.value else d, names[1..])
  }

  /** Calls that each run to completion keep the cap, however many follow each other. */
  lemma {:induction false} SerialSavesKeepCap(d: Db, names: seq<string>)
    requires |d.groups| <= MaxGroups
    ensures |SaveGroupsInTurn(d, names).groups| <= MaxGroups
    decreases |names|
  {
    if names != [] {
      var next := SaveGroupRow(d, names[0], "");
      SerialSavesKeepCap(if next.Ok? then next.value else d, names[1..]);
    }
  }

  /** The second half of `saveGroup`: the insert, once the count read earlier
      has admitted it. */
  function InsertIfAdmitted(d: Db, admitted: bool, name: string, dis: string): Result<Db> {
    if admitted then InsertGroup(d, name, dis) else Ok(d)
  }

  /** Two `saveGroup` calls started together, as the event loop may run them:
      each reads the count, and only after its `await` does either insert. */
  function InterleavedSaveGroups(d: Db, first: string, second: string): Result<Db> {
    var firstAdmitted := |d.groups| < MaxGroups;
    var secondAdmitted := |d.groups| < MaxGroups;
    match InsertIfAdmitted(d, firstAdmitted, first, "")
    case Err(e) => Err(e)
    case Ok(d1) => InsertIfAdmitted(d1, secondAdmitted, second, "")
  }

  /** With 15 groups, two interleaved calls with new, distinct names both
      pass the count and leave 17 groups. */
  lemma InterleavedSavesPassCap(d: Db, first: string, second: string)
    requires |d.groups| == MaxGroups - 1
    requires !HasGroupNamed(d.groups, first) && !HasGroupNamed(d.groups, second) && first != second
    ensures InterleavedSaveGroups(d, first, second).Ok?
    ensures |InterleavedSaveGroups(d, first, second).value.groups| == MaxGroups + 1
  {
    var d1 := InsertGroup(d, first, "").value;
    assert !HasGroupNamed(d1.groups, second) by {
      forall g | g in d1.groups ensures g.groupName != second {
        if g !in d.groups {
          assert g == d1.groups[|d.groups|];
        }
      }
    }
  }

  /** The row `saveCards` inserts: `answer ?? ""`, both review times `now`. */
  function NewCardRow(digest: string -> string, card: CardInput, now: int): (row: Card)
    ensures row.cardHash == CardHash(digest, row.question, row.answer)
    ensures row.question == card.question && row.groupId == card.groupId
    ensures card.answer.None? ==> row.answer == ""
    ensures card.answer.Some? ==> row.answer == card.answer.value
    ensures row.lastReview == now && row.nextReview == now
  {
    var answer := card.answer.GetOr("");
    Card(0, CardHash(digest, card.question, answer), card.groupId, card.question, answer, now, now)
  }

  /** The values `updateCardsOfID` writes: the hash recomputed from the new
      content, each missing review time replaced by `now`. */
  function UpdatedCardRow(digest: string -> string, card: CardInput, now: int): (row: Card)
    ensures row.cardHash == CardHash(digest, row.question, row.answer)
    ensures row.question == card.question && row.groupId == card.groupId
    ensures card.answer.None? ==> row.answer == ""
    ensures card.answer.Some? ==> row.answer == card.answer.value
    ensures card.lastReview.None? ==> row.lastReview == now
    ensures card.lastReview.Some? ==> row.lastReview == card.lastReview.value
    ensures card.nextReview.None? ==> row.nextReview == now
    ensures card.nextReview.Some? ==> row.nextReview == card.nextReview.value
  {
    var answer := card.answer.GetOr("");
    Card(0, CardHash(digest, card.question, answer), card.groupId, card.question, answer,
         card.lastReview.GetOr(now), card.nextReview.GetOr(now))
  }

  // ---------------------------------------------------------------------
  // Properties
  // ---------------------------------------------------------------------

  /** `initDB` keeps the file consistent and leaves exactly one group named '默认'. */
  lemma EnsureDefaultGroupExactlyOne(d: Db, digest: string -> string, foreignKeys: bool)
    requires DbValid(d, digest, foreignKeys)
    ensures DbValid(EnsureDefaultGroup(d), digest, foreignKeys)
    ensures |GroupsNamed(EnsureDefaultGroup(d).groups, DefaultGroupName)| == 1
    ensures HasGroupNamed(d.groups, DefaultGroupName) ==> EnsureDefaultGroup(d) == d
  {
    var e := EnsureDefaultGroup(d);
    if HasGroupNamed(d.groups, DefaultGroupName) {
      assert e == d;
    } else {
      assert d.groups == [];
      assert e.groups == [Group(d.groupSeq + 1, DefaultGroupName, DefaultGroupDis)];
      assert e.groups[0] in e.groups;
    }
    var named := (g: Group) => g.groupName == DefaultGroupName;
    UniqueByAtMostOne(e.groups, (g: Group) => g.groupName, named);
    var g :| g in e.groups && g.groupName == DefaultGroupName;
    assert g in GroupsNamed(e.groups, DefaultGroupName);
  }

  /** Running the initialisation a second time adds nothing. */
  lemma EnsureDefaultGroupIdempotent(d: Db)
    ensures EnsureDefaultGroup(EnsureDefaultGroup(d)) == EnsureDefaultGroup(d)
  {
  }

  /** A group insert below the cap keeps the file consistent, and the new row
      carries a fresh id and the given name. */
  lemma InsertGroupKeepsValid(d: Db, digest: string -> string, foreignKeys: bool, name: string, dis: string)
    requires DbValid(d, digest, foreignKeys)
    requires |d.groups| < MaxGroups
    requires d.groups != [] || name == DefaultGroupName
    requires InsertGroup(d, name, dis).Ok?
    ensures var e := InsertGroup(d, name, dis).value;
      && DbValid(e, digest, foreignKeys)
      && |e.groups| == |d.groups| + 1 && e.groups[..|d.groups|] == d.groups && e.cards == d.cards
      && e.groups[|d.groups|].groupName == name && !HasGroupId(d.groups, e.groups[|d.groups|].groupId)
  {
  }

  /** A card insert that succeeds keeps the file consistent; the new row has a fresh id. */
  lemma InsertCardKeepsValid(d: Db, digest: string -> string, foreignKeys: bool, row: Card)
    requires DbValid(d, digest, foreignKeys)
    requires row.cardHash == CardHash(digest, row.question, row.answer)
    requires InsertCard(d, foreignKeys, row).Ok?
    ensures var e := InsertCard(d, foreignKeys, row).value;
      && DbValid(e, digest, foreignKeys)
      && e.groups == d.groups && |e.cards| == |d.cards| + 1 && e.cards[..|d.cards|] == d.cards
      && !HasCardId(d.cards, e.cards[|d.cards|].cardId)
  {
  }

  /** Two cards whose question and answer concatenate to the same text get the
      same hash, so once one is stored the other is refused by `UNIQUE card_hash`:
      ("ab", "c") and ("a", "bc") collide. */
  lemma CollidingContentRejected(d: Db, digest: string -> string, foreignKeys: bool, first: Card, second: Card)
    requires DbValid(d, digest, foreignKeys)
    requires first.question == "ab" && first.answer == "c"
    requires second.question == "a" && second.answer == "bc"
    requires first.cardHash == CardHash(digest, first.question, first.answer)
    requires second.cardHash == CardHash(digest, second.question, second.answer)
    requires InsertCard(d, foreignKeys, first).Ok?
    ensures InsertCard(InsertCard(d, foreignKeys, first).value, foreignKeys, second) == Err(UniqueViolation)
  {
    assert first.question + first.answer == second.question + second.answer;
    var e := InsertCard(d, foreignKeys, first).value;
    assert e.cards[|d.cards|] in e.cards;
  }

  /** `dropGroupByID`: no card refers to the group afterwards, every other card
      is kept, the group row goes unless it is '默认', and every other group is kept. */
  lemma DropGroupEffect(d: Db, digest: string -> string, foreignKeys: bool, id: int)
    requires DbValid(d, digest, foreignKeys)
    ensures DropGroup(d, foreignKeys, id).Ok?
    ensures var e := DropGroup(d, foreignKeys, id).value;
      && DbValid(e, digest, foreignKeys)
      && (forall c :: c in e.cards <==> c in d.cards && c.groupId != id)
      && (forall g :: g in e.groups <==> g in d.groups && (g.groupId != id || g.groupName == DefaultGroupName))
  {
    var d1 := DeleteCardsOfGroup(d, id);
    WhereKeepsUnique(d.cards, (c: Card) => c.groupId != id, (c: Card) => c.cardId);
    WhereKeepsUnique(d.cards, (c: Card) => c.groupId != id, (c: Card) => c.cardHash);
    var keep := (g: Group) => !(g.groupId == id && g.groupName != DefaultGroupName);
    var e := DropGroup(d, foreignKeys, id).value;
    assert e.groups == Where(d.groups, keep);
    WhereKeepsUnique(d.groups, keep, (g: Group) => g.groupId);
    WhereKeepsUnique(d.groups, keep, (g: Group) => g.groupName);
    if d.groups != [] {
      var dg :| dg in d.groups && dg.groupName == DefaultGroupName;
      assert dg in e.groups;
    }
    if foreignKeys {
      forall c | c in e.cards ensures HasGroupId(e.groups, c.groupId) {
        var g :| g in d.groups && g.groupId == c.groupId;
        assert g in e.groups;
      }
    }
  }

  /** `dropCardsByID` removes exactly the card with that id and nothing else. */
  lemma DeleteCardEffect(d: Db, digest: string -> string, foreignKeys: bool, id: int)
    requires DbValid(d, digest, foreignKeys)
    ensures var e := DeleteCard(d, id);
      && DbValid(e, digest, foreignKeys)
      && e.groups == d.groups
      && (forall c :: c in e.cards <==> c in d.cards && c.cardId != id)
      && |e.cards| == if HasCardId(d.cards, id) then |d.cards| - 1 else |d.cards|
  {
    WhereKeepsUnique(d.cards, (c: Card) => c.cardId != id, (c: Card) => c.cardId);
    WhereKeepsUnique(d.cards, (c: Card) => c.cardId != id, (c: Card) => c.cardHash);
    DeleteCardLength(d.cards, id);
  }

  /** Deleting by a unique id removes at most one row. */
  lemma {:induction false} DeleteCardLength(cs: seq<Card>, id: int)
    requires UniqueBy(cs, (c: Card) => c.cardId)
    ensures |Where(cs, (c: Card) => c.cardId != id)| == if HasCardId(cs, id) then |cs| - 1 else |cs|
  {
    if cs != [] {
      assert UniqueBy(cs[1..], (c: Card) => c.cardId) by {
        forall i, j | 0 <= i < j < |cs[1..]| ensures cs[1..][i].cardId != cs[1..][j].cardId {
          assert cs[1..][i] == cs[i + 1] && cs[1..][j] == cs[j + 1];
        }
      }
      DeleteCardLength(cs[1..], id);
      if cs[0].cardId == id {
        forall c | c in cs[1..] ensures c.cardId != id {
          var j :| 0 <= j < |cs[1..]| && cs[1..][j] == c;
          assert cs[j + 1] == c;
        }
      } else {
        assert HasCardId(cs, id) == HasCardId(cs[1..], id) by {
          if HasCardId(cs, id) {
            var c :| c in cs && c.cardId == id;
            assert c in cs[1..];
          }
        }
      }
    }
  }

  /** `updateGroupOfID` never changes the row named '默认'; on another id it
      changes only that row's name and description, and a name already used by
      another group is refused with the table unchanged. */
  lemma UpdateGroupEffect(d: Db, digest: string -> string, foreignKeys: bool, id: Option<int>, name: string, dis: string)
    requires DbValid(d, digest, foreignKeys)
    ensures var r := UpdateGroupUnlessDefault(d, id, name, dis);
      && (r.Err? <==> id.Some? && (exists g :: g in d.groups && g.groupId == id.value && g.groupName != DefaultGroupName)
                                && (exists g :: g in d.groups && g.groupId != id.value && g.groupName == name))
      && (r.Ok? ==>
            && DbValid(r.value, digest, foreignKeys)
            && r.value.cards == d.cards
            && |r.value.groups| == |d.groups|
            && forall i :: 0 <= i < |d.groups| ==>
                 if id.Some? && d.groups[i].groupId == id.value && d.groups[i].groupName != DefaultGroupName
                 then r.value.groups[i] == Group(id.value, name, dis)
                 else r.value.groups[i] == d.groups[i])
  {
    var r := UpdateGroupUnlessDefault(d, id, name, dis);
    if r.Ok? && r.value != d {
      RenameGroupKeepsValid(d, digest, foreignKeys, id.value, name, dis);
    }
  }

  /** The rename that `UpdateGroupUnlessDefault` performs when it matches a
      row and the new name is free keeps the file consistent. */
  lemma RenameGroupKeepsValid(d: Db, digest: string -> string, foreignKeys: bool, id: int, name: string, dis: string)
    requires DbValid(d, digest, foreignKeys)
    requires !(exists g :: g in d.groups && g.groupId != id && g.groupName == name)
    ensures DbValid(d.(groups := Update(d.groups,
                                        (g: Group) => g.groupId == id && g.groupName != DefaultGroupName,
                                        (g: Group) => g.(groupName := name, groupDis := dis))),
                    digest, foreignKeys)
  {
    var sel := (g: Group) => g.groupId == id && g.groupName != DefaultGroupName;
    var f := (g: Group) => g.(groupName := name, groupDis := dis);
    var e := d.(groups := Update(d.groups, sel, f));
    assert UniqueBy(e.groups, (g: Group) => g.groupId) by {
      forall i, j | 0 <= i < |d.groups| && 0 <= j < |d.groups| && i != j && sel(d.groups[i])
        ensures !sel(d.groups[j]) && f(d.groups[i]).groupId != d.groups[j].groupId
      {
      }
      UpdateKeepsUnique(d.groups, sel, f, (g: Group) => g.groupId);
    }
    assert UniqueBy(e.groups, (g: Group) => g.groupName) by {
      forall i, j | 0 <= i < |d.groups| && 0 <= j < |d.groups| && i != j && sel(d.groups[i])
        ensures !sel(d.groups[j]) && f(d.groups[i]).groupName != d.groups[j].groupName
      {
        assert d.groups[j] in d.groups;
      }
      UpdateKeepsUnique(d.groups, sel, f, (g: Group) => g.groupName);
    }
    assert forall g :: g in e.groups ==> 0 < g.groupId <= e.groupSeq by {
      forall g | g in e.groups ensures 0 < g.groupId <= e.groupSeq {
        var i :| 0 <= i < |e.groups| && e.groups[i] == g;
        assert d.groups[i] in d.groups;
      }
    }
    assert d.groups != [] ==> HasGroupNamed(e.groups, DefaultGroupName) by {
      if d.groups != [] {
        var dg :| dg in d.groups && dg.groupName == DefaultGroupName;
        var k :| 0 <= k < |d.groups| && d.groups[k] == dg;
        assert e.groups[k] == dg;
      }
    }
    assert RefsValid(e, foreignKeys) by {
      if foreignKeys {
        forall c | c in e.cards ensures HasGroupId(e.groups, c.groupId) {
          var g :| g in d.groups && g.groupId == c.groupId;
          var i :| 0 <= i < |d.groups| && d.groups[i] == g;
          assert e.groups[i] in e.groups;
        }
      }
    }
  }

  /** `updateCardsOfID` keeps the file consistent: the new hash is recomputed
      from the new content, so every stored hash still matches its card. Only
      the card with that id changes, and keeps its id. */
  lemma UpdateCardEffect(d: Db, digest: string -> string, foreignKeys: bool, id: int, row: Card)
    requires DbValid(d, digest, foreignKeys)
    requires row.cardHash == CardHash(digest, row.question, row.answer)
    ensures var r := UpdateCard(d, foreignKeys, id, row);
      r.Ok? ==>
        && DbValid(r.value, digest, foreignKeys)
        && r.value.groups == d.groups
        && |r.value.cards| == |d.cards|
        && forall i :: 0 <= i < |d.cards| ==>
             r.value.cards[i] == if d.cards[i].cardId == id then row.(cardId := id) else d.cards[i]
  {
  }

  /** A card given without `card_id` is looked up as id 0, which no stored card
      has, so the update changes nothing. */
  lemma UpdateCardWithoutIdIsNoop(d: Db, digest: string -> string, foreignKeys: bool, row: Card)
    requires DbValid(d, digest, foreignKeys)
    ensures UpdateCard(d, foreignKeys, Option<int>.None.GetOr(0), row) == Ok(d)
  {
  }

  /** `getGroupByID` returns the one group with that id, or nothing. */
  lemma SelectGroupByIdEffect(d: Db, digest: string -> string, foreignKeys: bool, id: int)
    requires DbValid(d, digest, foreignKeys)
    ensures var r := SelectGroupById(d, id);
      && |r| <= 1
      && (r != [] <==> HasGroupId(d.groups, id))
      && forall g :: g in r ==> g in d.groups && g.groupId == id
  {
    UniqueByAtMostOne(d.groups, (g: Group) => g.groupId, (g: Group) => g.groupId == id);
    var r := SelectGroupById(d, id);
    if HasGroupId(d.groups, id) {
      var g :| g in d.groups && g.groupId == id;
      assert g in r;
    }
  }

  /** `getCardsByID` returns the one card with that id, or nothing. */
  lemma SelectCardByIdEffect(d: Db, digest: string -> string, foreignKeys: bool, id: int)
    requires DbValid(d, digest, foreignKeys)
    ensures var r := SelectCardById(d, id);
      && |r| <= 1
      && (r != [] <==> HasCardId(d.cards, id))
      && forall c :: c in r ==> c in d.cards && c.cardId == id
  {
    UniqueByAtMostOne(d.cards, (c: Card) => c.cardId, (c: Card) => c.cardId == id);
    var r := SelectCardById(d, id);
    if HasCardId(d.cards, id) {
      var c :| c in d.cards && c.cardId == id;
      assert c in r;
    }
  }

  // ---------------------------------------------------------------------
  // The service object
  // ---------------------------------------------------------------------

  class SqliteService {
    /** The digest behind `cardHash`. */
    const digest: string -> string
    /** Whether the engine enforces the `FOREIGN KEY (group_id)` clause. */
    const foreignKeys: bool

    /** `this.db` is set (and open). */
    var connected: bool
    var groups: seq<Group>
    var cards: seq<Card>
    var groupSeq: int
    var cardSeq: int

    function Tables(): Db
      reads this
    {
      Db(groups, cards, groupSeq, cardSeq)
    }

    ghost predicate Valid()
      reads this
    {
      DbValid(Tables(), digest, foreignKeys) && (connected ==> HasGroupNamed(groups, DefaultGroupName))
    }

    /** A service over a database file that does not exist yet. */
    constructor (digest: string -> string, foreignKeys: bool)
      ensures Valid() && !connected && Tables() == EmptyDb
      ensures this.digest == digest && this.foreignKeys == foreignKeys
    {
      this.digest := digest;
      this.foreignKeys := foreignKeys;
      connected := false;
      groups, cards, groupSeq, cardSeq := [], [], 0, 0;
    }

    method Store(d: Db)
      modifies this
      ensures Tables() == d && connected == old(connected)
    {
      groups, cards, groupSeq, cardSeq := d.groups, d.cards, d.groupSeq, d.cardSeq;
    }

    /** `initDB`: when not connected, open the file (tables are created if
        missing, which keeps existing rows) and insert '默认' unless present. */
    method InitDB()
      requires Valid()
      modifies this
      ensures Valid() && connected
      ensures Tables() == Opened(old(Tables()), old(connected))
      ensures |GroupsNamed(groups, DefaultGroupName)| == 1
      ensures old(connected) || old(HasGroupNamed(groups, DefaultGroupName)) ==> Tables() == old(Tables())
    {
      EnsureDefaultGroupExactlyOne(Tables(), digest, foreignKeys);
      if !connected {
        var found := GroupsNamed(groups, DefaultGroupName);
        if found == [] {
          var r := InsertGroup(Tables(), DefaultGroupName, DefaultGroupDis);
          Store(r.value);
        }
        connected := true;
      }
    }

    /** `getGroupNum`: `SELECT COUNT(*) FROM Group`. */
    method GetGroupNum() returns (n: nat)
      requires Valid()
      modifies this
      ensures Valid() && connected
      ensures Tables() == Opened(old(Tables()), old(connected))
      ensures n == |groups| && 1 <= n <= MaxGroups
    {
      InitDB();
      n := |groups|;
    }

    /** `getCardsNum`: `SELECT COUNT(*) FROM Cards`. */
    method GetCardsNum() returns (n: nat)
      requires Valid()
      modifies this
      ensures Valid() && connected
      ensures Tables() == Opened(old(Tables()), old(connected))
      ensures n == |cards|
    {
      InitDB();
      n := |cards|;
    }

    /** `saveGroup`: insert while fewer than 16 groups exist, otherwise report
        no change; a name already in use is refused by `UNIQUE group_name`. */
    method SaveGroup(group: GroupInput) returns (r: Result<nat>)
      requires Valid()
      modifies this
      ensures Valid() && connected
      ensures var d := Opened(old(Tables()), old(connected));
        if |d.groups| >= MaxGroups then r == Ok(0) && Tables() == d
        else if HasGroupNamed(d.groups, group.groupName) then r == Err(UniqueViolation) && Tables() == d
        else r == Ok(1) && Tables() == InsertGroup(d, group.groupName, group.groupDis.GetOr("")).value
      ensures |groups| <= MaxGroups
      ensures var d := Opened(old(Tables()), old(connected));
        match SaveGroupRow(d, group.groupName, group.groupDis.GetOr(""))
        case Ok(e) => Tables() == e
        case Err(_) => Tables() == d
      ensures r == Ok(1) ==>
        groups[|groups| - 1].groupName == group.groupName && groups[|groups| - 1].groupDis == group.groupDis.GetOr("")
    {
      InitDB();
      ghost var d := Tables();
      var n := GetGroupNum();
      if n < MaxGroups {
        var ins := InsertGroup(Tables(), group.groupName, group.groupDis.GetOr(""));
        if ins.Ok? {
          InsertGroupKeepsValid(d, digest, foreignKeys, group.groupName, group.groupDis.GetOr(""));
          Store(ins.value);
          r := Ok(1);
        } else {
          r := Err(ins.error);
        }
      } else {
        r := Ok(0);
      }
    }

    /** `saveCards`: insert the card with `answer ?? ""`, its hash, and `now`
        as both review times; a colliding hash, or with foreign keys enforced
        an unknown group, is refused and nothing changes. */
    method SaveCards(card: CardInput, now: int) returns (r: Result<nat>)
      requires Valid()
      modifies this
      ensures Valid() && connected
      ensures var d := Opened(old(Tables()), old(connected));
        match InsertCard(d, foreignKeys, NewCardRow(digest, card, now))
        case Ok(e) => r == Ok(1) && Tables() == e
        case Err(err) => r == Err(err) && Tables() == d
      ensures r.Ok? ==> var c := cards[|cards| - 1];
        && c.question == card.question && c.answer == card.answer.GetOr("")
        && c.cardHash == CardHash(digest, card.question, card.answer.GetOr(""))
        && c.lastReview == now && c.nextReview == now
    {
      InitDB();
      var row := NewCardRow(digest, card, now);
      var ins := InsertCard(Tables(), foreignKeys, row);
      if ins.Ok? {
        InsertCardKeepsValid(Tables(), digest, foreignKeys, row);
        Store(ins.value);
        r := Ok(1);
      } else {
        r := Err(ins.error);
      }
    }

    /** `getGroup`: every group row. */
    method GetGroup() returns (rows: seq<Group>)
      requires Valid()
      modifies this
      ensures Valid() && connected
      ensures Tables() == Opened(old(Tables()), old(connected))
      ensures rows == groups && HasGroupNamed(rows, DefaultGroupName)
    {
      InitDB();
      rows := groups;
    }

    /** `getCards`: every card row. */
    method GetCards() returns (rows: seq<Card>)
      requires Valid()
      modifies this
      ensures Valid() && connected
      ensures Tables() == Opened(old(Tables()), old(connected))
      ensures rows == cards
    {
      InitDB();
      rows := cards;
    }

    /** `getGroupByID`: the group with that id, if any. */
    method GetGroupById(id: int) returns (rows: seq<Group>)
      requires Valid()
      modifies this
      ensures Valid() && connected
      ensures Tables() == Opened(old(Tables()), old(connected))
      ensures rows == SelectGroupById(Tables(), id)
      ensures |rows| <= 1 && (rows != [] <==> HasGroupId(groups, id))
    {
      InitDB();
      rows := SelectGroupById(Tables(), id);
      SelectGroupByIdEffect(Tables(), digest, foreignKeys, id);
    }

    /** `getCardsByID`: the card with that id, if any. */
    method GetCardsById(id: int) returns (rows: seq<Card>)
      requires Valid()
      modifies this
      ensures Valid() && connected
      ensures Tables() == Opened(old(Tables()), old(connected))
      ensures rows == SelectCardById(Tables(), id)
      ensures |rows| <= 1 && (rows != [] <==> HasCardId(cards, id))
    {
      InitDB();
      rows := SelectCardById(Tables(), id);
      SelectCardByIdEffect(Tables(), digest, foreignKeys, id);
    }

    /** `dropGroupByID`: delete the group's cards, then the group unless it is '默认'. */
    method DropGroupById(id: int)
      requires Valid()
      modifies this
      ensures Valid() && connected
      ensures Tables() == DropGroup(Opened(old(Tables()), old(connected)), foreignKeys, id).value
      ensures forall c :: c in cards ==> c.groupId != id
      ensures forall c :: c in cards <==> c in Opened(old(Tables()), old(connected)).cards && c.groupId != id
      ensures forall g :: g in groups <==>
        g in Opened(old(Tables()), old(connected)).groups && (g.groupId != id || g.groupName == DefaultGroupName)
    {
      InitDB();
      ghost var d := Tables();
      DropGroupEffect(d, digest, foreignKeys, id);
      Store(DeleteCardsOfGroup(Tables(), id));
      var r := DeleteGroupUnlessDefault(Tables(), foreignKeys, id);
      Store(r.value);
      assert HasGroupNamed(d.groups, DefaultGroupName);
      ghost var dg :| dg in d.groups && dg.groupName == DefaultGroupName;
      assert dg in groups;
    }

    /** `dropCardsByID`: delete the card with that id. */
    method DropCardsById(id: int)
      requires Valid()
      modifies this
      ensures Valid() && connected
      ensures Tables() == DeleteCard(Opened(old(Tables()), old(connected)), id)
      ensures groups == Opened(old(Tables()), old(connected)).groups
      ensures forall c :: c in cards <==> c in Opened(old(Tables()), old(connected)).cards && c.cardId != id
    {
      InitDB();
      DeleteCardEffect(Tables(), digest, foreignKeys, id);
      Store(DeleteCard(Tables(), id));
    }

    /** `updateGroupOfID`: rename and redescribe the group unless it is '默认'. */
    method UpdateGroupOfId(group: GroupInput) returns (r: Result<()>)
      requires Valid()
      modifies this
      ensures Valid() && connected
      ensures var d := Opened(old(Tables()), old(connected));
        match UpdateGroupUnlessDefault(d, group.groupId, group.groupName, group.groupDis.GetOr(""))
        case Ok(e) => r == Ok(()) && Tables() == e
        case Err(err) => r == Err(err) && Tables() == d
      ensures forall g :: g in old(groups) && g.groupName == DefaultGroupName ==> g in groups
    {
      InitDB();
      ghost var d := Tables();
      UpdateGroupEffect(d, digest, foreignKeys, group.groupId, group.groupName, group.groupDis.GetOr(""));
      var u := UpdateGroupUnlessDefault(Tables(), group.groupId, group.groupName, group.groupDis.GetOr(""));
      if u.Ok? {
        Store(u.value);
        r := Ok(());
      } else {
        r := Err(u.error);
      }
      forall g | g in old(groups) && g.groupName == DefaultGroupName ensures g in groups {
        assert g in d.groups;
        var i :| 0 <= i < |d.groups| && d.groups[i] == g;
        assert groups[i] == g;
      }
    }

    /** `updateCardsOfID`: overwrite every column of the card `card_id ?? 0`,
        recomputing its hash from the new question and answer. */
    method UpdateCardsOfId(card: CardInput, now: int) returns (r: Result<()>)
      requires Valid()
      modifies this
      ensures Valid() && connected
      ensures var d := Opened(old(Tables()), old(connected));
        match UpdateCard(d, foreignKeys, card.cardId.GetOr(0), UpdatedCardRow(digest, card, now))
        case Ok(e) => r == Ok(()) && Tables() == e
        case Err(err) => r == Err(err) && Tables() == d
    {
      InitDB();
      var row := UpdatedCardRow(digest, card, now);
      UpdateCardEffect(Tables(), digest, foreignKeys, card.cardId.GetOr(0), row);
      var u := UpdateCard(Tables(), foreignKeys, card.cardId.GetOr(0), row);
      if u.Ok? {
        Store(u.value);
        r := Ok(());
      } else {
        r := Err(u.error);
      }
    }

    /** `closeDB`: drop the connection; the file keeps its rows. */
    method CloseDB()
      requires Valid()
      modifies this
      ensures Valid() && !connected && Tables() == old(Tables())
    {
      if connected {
        connected := false;
      }
    }
  }
}
