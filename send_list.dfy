/**
 * `SendListService.sendList` up to the Telegram send: the per-currency price
 * totals of a shopping list (`formatShoppingTotals`), the resolution of the
 * recipients' Telegram ids, and the message text for a shopping or a task
 * list. The send itself is left to the caller: the result carries the
 * Telegram ids and the text, and `sent` is the number of ids.
 */
module SendList {
  import opened Common
  import opened Errors
  import opened Store
  import Text
  import Lists
  import Query
  import ListsAccess
  import BaseItems

  // ---- fetched shopping items ----------------------------------------------------------

  /** A fetched shopping item with the titles of its linked locations, in the order the include returned them. */
  datatype ShoppingLine = ShoppingLine(id: ItemId, item: Item, locationTitles: seq<string>)

  /** The quantity column of a shopping item (every row of the shopping table carries the shopping columns). */
  function Quantity(it: ShoppingLine): int {
    if it.item.detail.ShoppingDetail? then it.item.detail.quantity else 1
  }

  /** The price columns of a shopping item. */
  function PriceOf(it: ShoppingLine): Price {
    if it.item.detail.ShoppingDetail? then it.item.detail.price else NoPriceSet
  }

  // ---- formatShoppingTotals ------------------------------------------------------------

  /** The running total of one currency: the sum of the minima, and the sum of the maxima while it is known. */
  datatype Acc = Acc(min: int, maxKnown: bool, max: int)

  const Fresh: Acc := Acc(0, true, 0)

  /** The item counts towards currency `c`: its currency is `c`, not empty, and its price type is not NONE. */
  predicate PricedIn(it: ShoppingLine, c: string) {
    var p := PriceOf(it);
    p.currency.Some? && p.currency.value != "" && p.priceType != NoPrice && p.currency.value == c
  }

  /** The item counts towards the total of its own currency. */
  predicate Priced(it: ShoppingLine) {
    PricedIn(it, PriceOf(it).currency.GetOr(""))
  }

  /** A RANGE price without a maximum: it makes its currency's maximum unknown. */
  predicate OpenRange(it: ShoppingLine) {
    PriceOf(it).priceType == Range && PriceOf(it).max.None?
  }

  /** One item added to its currency's running total. */
  function Added(acc: Acc, it: ShoppingLine): Acc {
    var p := PriceOf(it);
    var q := Quantity(it);
    var min := p.min.GetOr(0) * q;
    if p.priceType == Range && p.max.None? then Acc(acc.min + min, false, acc.max)
    else if p.priceType == Range then Acc(acc.min + min, acc.maxKnown, acc.max + p.max.value * q)
    else if p.priceType == Exact then Acc(acc.min + min, acc.maxKnown, acc.max + min)
    else Acc(acc.min + min, acc.maxKnown, acc.max)
  }

  /** The running total of currency `c` after the items, in order. */
  function Tally(items: seq<ShoppingLine>, c: string): Acc {
    if items == [] then Fresh
    else
      var prev := Tally(items[..|items| - 1], c);
      var last := items[|items| - 1];
      if PricedIn(last, c) then Added(prev, last) else prev
  }

  /** A currency's maximum stays known exactly when none of its items is a RANGE without a maximum. */
  lemma {:induction false} TallyMaxKnown(items: seq<ShoppingLine>, c: string)
    ensures Tally(items, c).maxKnown <==> forall i :: 0 <= i < |items| && PricedIn(items[i], c) ==> !OpenRange(items[i])
  {
    if items != [] {
      var front := items[..|items| - 1];
      assert forall i :: 0 <= i < |front| ==> front[i] == items[i];
      TallyMaxKnown(front, c);
    }
  }

  /** Two running totals of the same currency, summed. */
  function Combine(a: Acc, b: Acc): Acc {
    Acc(a.min + b.min, a.maxKnown && b.maxKnown, a.max + b.max)
  }

  /** The total over two runs of items is the sum of their totals. */
  lemma {:induction false} TallyAppend(a: seq<ShoppingLine>, b: seq<ShoppingLine>, c: string)
    ensures Tally(a + b, c) == Combine(Tally(a, c), Tally(b, c))
  {
    if b == [] {
      assert a + b == a;
    } else {
      var front := b[..|b| - 1];
      var last := b[|b| - 1];
      TallyAppend(a, front, c);
      assert (a + b)[..|a + b| - 1] == a + front;
      assert (a + b)[|a + b| - 1] == last;
      assert Tally(b, c) == if PricedIn(last, c) then Added(Tally(front, c), last) else Tally(front, c);
      if PricedIn(last, c) {
        AddedCombine(Tally(a, c), Tally(front, c), last);
      }
    }
  }

  /** Adding an item after combining is adding it to the second total. */
  lemma AddedCombine(x: Acc, y: Acc, it: ShoppingLine)
    ensures Added(Combine(x, y), it) == Combine(x, Added(y, it))
  {
  }

  /** The totals do not depend on the order of the items. */
  lemma TallyOrderFree(a: seq<ShoppingLine>, b: seq<ShoppingLine>, c: string)
    ensures Tally(a + b, c) == Tally(b + a, c)
  {
    TallyAppend(a, b, c);
    TallyAppend(b, a, c);
  }

  /** An item without a currency, with an empty one, with price type NONE or in another currency adds nothing. */
  lemma UnpricedAddsNothing(a: seq<ShoppingLine>, x: ShoppingLine, b: seq<ShoppingLine>, c: string)
    requires !PricedIn(x, c)
    ensures Tally(a + [x] + b, c) == Tally(a + b, c)
  {
    TallyAppend(a + [x], b, c);
    TallyAppend(a, b, c);
    assert (a + [x])[..|a + [x]| - 1] == a;
  }

  /** A currency whose items all have EXACT prices has a known maximum equal to its minimum. */
  lemma {:induction false} ExactOnly(items: seq<ShoppingLine>, c: string)
    requires forall i :: 0 <= i < |items| && PricedIn(items[i], c) ==> PriceOf(items[i]).priceType == Exact
    ensures Tally(items, c).maxKnown && Tally(items, c).max == Tally(items, c).min
  {
    if items != [] {
      var front := items[..|items| - 1];
      assert forall i :: 0 <= i < |front| ==> front[i] == items[i];
      ExactOnly(front, c);
    }
  }

  /** A currency none of whose items are priced has the fresh total. */
  lemma {:induction false} TallyAbsent(items: seq<ShoppingLine>, c: string)
    requires forall i :: 0 <= i < |items| ==> !PricedIn(items[i], c)
    ensures Tally(items, c) == Fresh
  {
    if items != [] {
      var front := items[..|items| - 1];
      assert forall i :: 0 <= i < |front| ==> front[i] == items[i];
      TallyAbsent(front, c);
    }
  }

  /** The currency of each priced item, in item order. */
  function Currencies(items: seq<ShoppingLine>): seq<string> {
    if items == [] then []
    else
      var last := items[|items| - 1];
      Currencies(items[..|items| - 1]) + (if Priced(last) then [PriceOf(last).currency.value] else [])
  }

  lemma CurrenciesSnoc(items: seq<ShoppingLine>, x: ShoppingLine)
    ensures Currencies(items + [x]) == Currencies(items) + if Priced(x) then [PriceOf(x).currency.value] else []
  {
    assert (items + [x])[..|items|] == items;
  }

  /** The currencies listed are exactly those some item is priced in. */
  lemma {:induction false} CurrenciesListed(items: seq<ShoppingLine>)
    ensures forall c :: c in Currencies(items) <==> exists i :: 0 <= i < |items| && PricedIn(items[i], c)
  {
    if items != [] {
      var front := items[..|items| - 1];
      assert forall i :: 0 <= i < |front| ==> front[i] == items[i];
      CurrenciesListed(front);
    }
  }

  /** How one currency's total prints: a range only when the maximum is known and differs from the minimum. */
  function Part(c: string, acc: Acc): (s: string)
    ensures |s| > 0
  {
    if acc.maxKnown && acc.max != acc.min then Text.IntToString(acc.min) + "-" + Text.IntToString(acc.max) + " " + c
    else Text.IntToString(acc.min) + " " + c
  }

  /** `parts.join(sep)` with a separator of any length. */
  function JoinWith(parts: seq<string>, sep: string): (s: string)
    ensures |parts| > 0 && |parts[0]| > 0 ==> |s| > 0
  {
    if parts == [] then ""
    else if |parts| == 1 then parts[0]
    else parts[0] + sep + JoinWith(parts[1..], sep)
  }

  /** The currencies in the order a `Map` keyed by currency first saw them. */
  function CurrencyOrder(items: seq<ShoppingLine>): (cs: seq<string>)
    ensures Distinct(cs)
    ensures forall c :: c in cs <==> exists i :: 0 <= i < |items| && PricedIn(items[i], c)
  {
    CurrenciesListed(items);
    Lists.FirstIds(Currencies(items))
  }

  /**
   * What `formatShoppingTotals` returns: one part per currency in first-seen
   * order, joined with " / "; it is empty exactly when no item is priced.
   */
  function Totals(items: seq<ShoppingLine>): (s: string)
    ensures s == "" <==> forall i :: 0 <= i < |items| ==> !Priced(items[i])
  {
    var cs := CurrencyOrder(items);
    var parts := seq(|cs|, k requires 0 <= k < |cs| => Part(cs[k], Tally(items, cs[k])));
    assert |cs| > 0 ==> |parts[0]| > 0;
    assert (forall i :: 0 <= i < |items| ==> !Priced(items[i])) ==> cs == [] by {
      if cs != [] {
        assert cs[0] in cs;
        var i :| 0 <= i < |items| && PricedIn(items[i], cs[0]);
        assert Priced(items[i]);
      }
    }
    assert cs == [] ==> forall i :: 0 <= i < |items| ==> !Priced(items[i]) by {
      forall i | 0 <= i < |items| && Priced(items[i]) ensures cs != [] {
        assert PriceOf(items[i]).currency.value in cs;
      }
    }
    JoinWith(parts, " / ")
  }

  /** One more item changes only its own currency's total, by `Added`. */
  lemma TallySnoc(items: seq<ShoppingLine>, x: ShoppingLine, c: string)
    ensures Tally(items + [x], c) == if PricedIn(x, c) then Added(Tally(items, c), x) else Tally(items, c)
  {
    assert (items + [x])[..|items|] == items;
  }

  /** The state of the first pass of `formatShoppingTotals` after the items `seen`. */
  ghost predicate Accumulated(seen: seq<ShoppingLine>, byCurrency: map<string, Acc>, order: seq<string>) {
    && order == Lists.FirstIds(Currencies(seen))
    && byCurrency.Keys == Elements(order)
    && forall c :: c in byCurrency ==> byCurrency[c] == Tally(seen, c)
  }

  /** A priced item adds to its currency's entry, creating it at the end of the order when new. */
  lemma PricedStep(seen: seq<ShoppingLine>, byCurrency: map<string, Acc>, order: seq<string>, it: ShoppingLine)
    requires Accumulated(seen, byCurrency, order) && Priced(it)
    ensures var currency := PriceOf(it).currency.value;
      var current := if currency in byCurrency then byCurrency[currency] else Fresh;
      Accumulated(seen + [it], byCurrency[currency := Added(current, it)], if currency in order then order else order + [currency])
  {
    OrderStep(seen, it);
    KeysStep(seen, byCurrency, order, it);
    EntriesStep(seen, byCurrency, order, it);
  }

  /** The map gains the new currency exactly when the order does. */
  lemma KeysStep(seen: seq<ShoppingLine>, byCurrency: map<string, Acc>, order: seq<string>, it: ShoppingLine)
    requires Accumulated(seen, byCurrency, order) && Priced(it)
    ensures var currency := PriceOf(it).currency.value;
      var current := if currency in byCurrency then byCurrency[currency] else Fresh;
      byCurrency[currency := Added(current, it)].Keys == Elements(if currency in order then order else order + [currency])
  {
  }

  /** Each entry of the updated map is its currency's total after the item. */
  lemma EntriesStep(seen: seq<ShoppingLine>, byCurrency: map<string, Acc>, order: seq<string>, it: ShoppingLine)
    requires Accumulated(seen, byCurrency, order) && Priced(it)
    ensures var currency := PriceOf(it).currency.value;
      var current := if currency in byCurrency then byCurrency[currency] else Fresh;
      var after := byCurrency[currency := Added(current, it)];
      forall c :: c in after ==> after[c] == Tally(seen + [it], c)
  {
    var currency := PriceOf(it).currency.value;
    if currency !in byCurrency {
      NewCurrencyIsFresh(seen, currency);
    }
    TallyStep(seen, it);
  }

  /** A currency not yet listed has the fresh total. */
  lemma {:induction false} NewCurrencyIsFresh(seen: seq<ShoppingLine>, c: string)
    requires c !in Currencies(seen)
    ensures Tally(seen, c) == Fresh
  {
    if seen != [] {
      var front := seen[..|seen| - 1];
      NewCurrencyIsFresh(front, c);
    }
  }

  /** A priced item's currency joins the first-seen order when it is new. */
  lemma OrderStep(seen: seq<ShoppingLine>, it: ShoppingLine)
    requires Priced(it)
    ensures var currency := PriceOf(it).currency.value;
      var order := Lists.FirstIds(Currencies(seen));
      Lists.FirstIds(Currencies(seen + [it])) == if currency in order then order else order + [currency]
  {
    CurrenciesSnoc(seen, it);
    Lists.FirstIdsSnoc(Currencies(seen), PriceOf(it).currency.value);
  }

  /** A priced item changes its own currency's total by `Added` and no other. */
  lemma TallyStep(seen: seq<ShoppingLine>, it: ShoppingLine)
    requires Priced(it)
    ensures forall c :: Tally(seen + [it], c) == if c == PriceOf(it).currency.value then Added(Tally(seen, c), it) else Tally(seen, c)
  {
    forall c | true ensures Tally(seen + [it], c) == if c == PriceOf(it).currency.value then Added(Tally(seen, c), it) else Tally(seen, c) {
      TallySnoc(seen, it, c);
    }
  }

  /** An item that is not priced changes nothing. */
  lemma UnpricedStep(seen: seq<ShoppingLine>, byCurrency: map<string, Acc>, order: seq<string>, it: ShoppingLine)
    requires Accumulated(seen, byCurrency, order) && !Priced(it)
    ensures Accumulated(seen + [it], byCurrency, order)
  {
    CurrenciesSnoc(seen, it);
    assert Currencies(seen + [it]) == Currencies(seen);
    forall c | true ensures Tally(seen + [it], c) == Tally(seen, c) {
      TallySnoc(seen, it, c);
    }
  }

  /** The in-place update of one currency's running total by one item. */
  method AddTo(current: Acc, it: ShoppingLine) returns (next: Acc)
    ensures next == Added(current, it)
  {
    var p := PriceOf(it);
    var q := Quantity(it);
    var min := p.min.GetOr(0) * q;
    next := current.(min := current.min + min);
    if p.priceType == Range {
      if p.max.None? {
        next := next.(maxKnown := false);
      } else {
        next := next.(max := next.max + p.max.value * q);
      }
    } else if p.priceType == Exact {
      next := next.(max := next.max + min);
    }
  }

  /**
   * The first pass of `formatShoppingTotals`: each priced item updates the
   * running total of its currency in a map that remembers the order in which
   * currencies were first set.
   */
  method Accumulate(items: seq<ShoppingLine>) returns (byCurrency: map<string, Acc>, order: seq<string>)
    ensures order == CurrencyOrder(items)
    ensures byCurrency.Keys == Elements(order)
    ensures forall c :: c in byCurrency ==> byCurrency[c] == Tally(items, c)
  {
    byCurrency := map[];
    order := [];
    for i := 0 to |items|
      invariant Accumulated(items[..i], byCurrency, order)
    {
      var it := items[i];
      var p := PriceOf(it);
      assert items[..i + 1] == items[..i] + [it];
      if p.currency.Some? && p.currency.value != "" && p.priceType != NoPrice {
        var currency := p.currency.value;
        var current := if currency in byCurrency then byCurrency[currency] else Fresh;
        current := AddTo(current, it);
        PricedStep(items[..i], byCurrency, order, it);
        byCurrency := byCurrency[currency := current];
        if currency !in order {
          order := order + [currency];
        }
      } else {
        UnpricedStep(items[..i], byCurrency, order, it);
      }
    }
    assert items[..|items|] == items;
  }

  /**
   * `formatShoppingTotals`: the accumulating pass, then one pass printing the
   * map's entries in insertion order.
   */
  method FormatShoppingTotals(items: seq<ShoppingLine>) returns (s: string)
    ensures s == Totals(items)
  {
    var byCurrency, order := Accumulate(items);
    var parts: seq<string> := [];
    for k := 0 to |order|
      invariant |parts| == k
      invariant forall j :: 0 <= j < k ==> parts[j] == Part(order[j], Tally(items, order[j]))
    {
      var currency := order[k];
      var acc := byCurrency[currency];
      assert acc == Tally(items, currency);
      if acc.maxKnown && acc.max != acc.min {
        parts := parts + [Text.IntToString(acc.min) + "-" + Text.IntToString(acc.max) + " " + currency];
      } else {
        parts := parts + [Text.IntToString(acc.min) + " " + currency];
      }
    }
    TotalsJoin(items, parts);
    s := JoinWith(parts, " / ");
  }

  /** `Totals` joins exactly the parts of the currencies in their order. */
  lemma TotalsJoin(items: seq<ShoppingLine>, parts: seq<string>)
    requires var cs := CurrencyOrder(items);
      |parts| == |cs| && forall k :: 0 <= k < |cs| ==> parts[k] == Part(cs[k], Tally(items, cs[k]))
    ensures Totals(items) == JoinWith(parts, " / ")
  {
    var cs := CurrencyOrder(items);
    assert parts == seq(|cs|, k requires 0 <= k < |cs| => Part(cs[k], Tally(items, cs[k])));
  }

  // ---- recipients ------------------------------------------------------------------------

  datatype SendRequest = SendRequest(familyId: FamilyId, allExceptMe: bool, recipientUserIds: Option<seq<UserId>>)

  /** The other members of the family: `findMany({ where: { familyId, userId: { not: userId } } })`. */
  function OtherMembers(members: map<(FamilyId, UserId), Member>, familyId: FamilyId, userId: UserId): (r: set<UserId>)
    ensures forall u :: u in r <==> (familyId, u) in members && u != userId
  {
    set k | k in members && k.0 == familyId && k.1 != userId :: k.1
  }

  /** The requested recipients, de-duplicated and without the sender. */
  function Chosen(members: map<(FamilyId, UserId), Member>, userId: UserId, dto: SendRequest): (r: Result<set<UserId>>)
    ensures r.Err? <==> dto.allExceptMe && dto.recipientUserIds.Some? && |dto.recipientUserIds.value| > 0
    ensures r.Err? ==> r.FailedWith(BadRequest, "recipientUserIds must be omitted when allExceptMe=true")
    ensures r.Ok? ==> userId !in r.value
    ensures r.Ok? && dto.allExceptMe ==> r.value == OtherMembers(members, dto.familyId, userId)
    ensures r.Ok? && !dto.allExceptMe ==> forall u :: u in r.value <==> u in dto.recipientUserIds.GetOr([]) && u != userId
  {
    if dto.allExceptMe then
      if dto.recipientUserIds.Some? && |dto.recipientUserIds.value| > 0 then
        Fail(BadRequest, "recipientUserIds must be omitted when allExceptMe=true")
      else Ok(OtherMembers(members, dto.familyId, userId) - {userId})
    else Ok(Elements(dto.recipientUserIds.GetOr([])) - {userId})
  }

  /** The recipients with a membership row in the family. */
  function MembersAmong(members: map<(FamilyId, UserId), Member>, familyId: FamilyId, ids: set<UserId>): set<UserId> {
    set u | u in ids && (familyId, u) in members
  }

  /** The recipients with a user row. */
  function UsersAmong(users: map<UserId, User>, ids: set<UserId>): set<UserId> {
    set u | u in ids && u in users
  }

  /** The user has a non-empty Telegram id. */
  predicate Reachable(users: map<UserId, User>, u: UserId) {
    u in users && users[u].telegramId.Some? && users[u].telegramId.value != ""
  }

  /** The distinct, non-empty Telegram ids of the recipients. */
  function TelegramIds(users: map<UserId, User>, ids: set<UserId>): set<string> {
    set u | u in ids && Reachable(users, u) :: users[u].telegramId.value
  }

  /**
   * Lines 79-139 of `sendList`: the list must be shared with the family and
   * the sender must belong to it; the recipients must be non-empty, all
   * family members and all existing users, and at least one must have a
   * Telegram id. The counts compare the rows found with the id list.
   */
  function Recipients(familyIds: set<FamilyId>, members: map<(FamilyId, UserId), Member>, users: map<UserId, User>,
                      userId: UserId, dto: SendRequest): (r: Result<set<string>>)
    ensures dto.familyId !in familyIds ==> r.FailedWith(Forbidden, "List is not shared to this family")
    ensures dto.familyId in familyIds && (dto.familyId, userId) !in members ==> r.FailedWith(Forbidden, "Not a family member")
    ensures r.Ok? ==> r.value != {}
  {
    if dto.familyId !in familyIds then Fail(Forbidden, "List is not shared to this family")
    else if (dto.familyId, userId) !in members then Fail(Forbidden, "Not a family member")
    else
      var ids :- Chosen(members, userId, dto);
      if |ids| == 0 then Fail(BadRequest, "No recipients")
      else if |MembersAmong(members, dto.familyId, ids)| != |ids| then Fail(BadRequest, "Some recipients are not family members")
      else if |UsersAmong(users, ids)| != |ids| then Fail(BadRequest, "Some recipients do not exist")
      else
        var tg := TelegramIds(users, ids);
        if |tg| == 0 then Fail(BadRequest, "Recipients have no telegramId") else Ok(tg)
  }

  /** A count test `found.length === ids.length` over a subset: it passes exactly when nothing is missing. */
  lemma CountGate<T>(found: set<T>, ids: set<T>)
    requires found <= ids
    ensures |found| == |ids| <==> found == ids
  {
    if found != ids {
      var x :| x in ids && x !in found;
      SubsetCardinality(found, ids - {x});
    }
  }

  /**
   * A successful resolution reaches exactly the Telegram ids of the chosen
   * recipients; every chosen recipient is another member of the family and
   * an existing user.
   */
  lemma RecipientsSound(familyIds: set<FamilyId>, members: map<(FamilyId, UserId), Member>, users: map<UserId, User>,
                        userId: UserId, dto: SendRequest)
    requires Recipients(familyIds, members, users, userId, dto).Ok?
    ensures var ids := Chosen(members, userId, dto).value;
      && Recipients(familyIds, members, users, userId, dto).value == TelegramIds(users, ids)
      && forall u :: u in ids ==> u != userId && (dto.familyId, u) in members && u in users
  {
    var ids := Chosen(members, userId, dto).value;
    CountGate(MembersAmong(members, dto.familyId, ids), ids);
    CountGate(UsersAmong(users, ids), ids);
    forall u | u in ids ensures (dto.familyId, u) in members && u in users {
      assert u in MembersAmong(members, dto.familyId, ids);
      assert u in UsersAmong(users, ids);
    }
  }

  /** With `allExceptMe`, every other member with a Telegram id is reached. */
  lemma AllExceptMeReachesEveryone(familyIds: set<FamilyId>, members: map<(FamilyId, UserId), Member>, users: map<UserId, User>,
                                   userId: UserId, dto: SendRequest, u: UserId)
    requires dto.allExceptMe && Recipients(familyIds, members, users, userId, dto).Ok?
    requires (dto.familyId, u) in members && u != userId && Reachable(users, u)
    ensures users[u].telegramId.value in Recipients(familyIds, members, users, userId, dto).value
  {
    RecipientsSound(familyIds, members, users, userId, dto);
    assert u in Chosen(members, userId, dto).value;
  }

  /** An explicit recipient outside the family (and not the sender) is rejected, once the list and sender checks pass. */
  lemma StrangerIsRejected(familyIds: set<FamilyId>, members: map<(FamilyId, UserId), Member>, users: map<UserId, User>,
                           userId: UserId, dto: SendRequest, u: UserId)
    requires dto.familyId in familyIds && (dto.familyId, userId) in members && !dto.allExceptMe
    requires u in dto.recipientUserIds.GetOr([]) && u != userId && (dto.familyId, u) !in members
    ensures Recipients(familyIds, members, users, userId, dto).FailedWith(BadRequest, "Some recipients are not family members")
  {
    var ids := Chosen(members, userId, dto).value;
    assert u in ids;
    CountGate(MembersAmong(members, dto.familyId, ids), ids);
  }

  /** Naming only the sender, or nobody, is rejected with "No recipients". */
  lemma NobodyIsRejected(familyIds: set<FamilyId>, members: map<(FamilyId, UserId), Member>, users: map<UserId, User>,
                         userId: UserId, dto: SendRequest)
    requires dto.familyId in familyIds && (dto.familyId, userId) in members && !dto.allExceptMe
    requires forall i :: 0 <= i < |dto.recipientUserIds.GetOr([])| ==> dto.recipientUserIds.GetOr([])[i] == userId
    ensures Recipients(familyIds, members, users, userId, dto).FailedWith(BadRequest, "No recipients")
  {
    var ids := Chosen(members, userId, dto).value;
    assert ids == {};
  }

  // ---- the message text ------------------------------------------------------------------

  /** The first line of every message: a memo emoji and the list name. */
  function Header(name: string): string {
    "\U{1F4DD} " + name + "\n"
  }

  function Mark(checked: bool): string {
    if checked then "[x]" else "[ ]"
  }

  /** One shopping line: the check mark, the title and, for a quantity other than 1, " x" and the quantity. */
  function ShoppingLineText(it: ShoppingLine): string {
    var q := Quantity(it);
    Mark(it.item.isChecked) + " " + it.item.title + (if q != 1 then " x" + Text.IntToString(q) else "") + "\n"
  }

  /** The shopping lines of the items, in order. */
  function ShoppingLines(items: seq<ShoppingLine>): string {
    if items == [] then "" else ShoppingLines(items[..|items| - 1]) + ShoppingLineText(items[|items| - 1])
  }

  /** The non-empty titles, in order. */
  function NonEmpty(titles: seq<string>): seq<string> {
    if titles == [] then []
    else
      var last := titles[|titles| - 1];
      NonEmpty(titles[..|titles| - 1]) + (if last != "" then [last] else [])
  }

  lemma {:induction false} NonEmptyListed(titles: seq<string>)
    ensures forall t :: t in NonEmpty(titles) <==> t in titles && t != ""
  {
    if titles != [] {
      var front := titles[..|titles| - 1];
      assert titles == front + [titles[|titles| - 1]];
      NonEmptyListed(front);
    }
  }

  /** All non-empty location titles of the items, item by item. */
  function TitlesSeen(items: seq<ShoppingLine>): seq<string> {
    if items == [] then [] else TitlesSeen(items[..|items| - 1]) + NonEmpty(items[|items| - 1].locationTitles)
  }

  lemma {:induction false} TitlesSeenListed(items: seq<ShoppingLine>)
    ensures forall t :: t in TitlesSeen(items) <==> t != "" && exists i :: 0 <= i < |items| && t in items[i].locationTitles
  {
    if items != [] {
      var front := items[..|items| - 1];
      assert forall i :: 0 <= i < |front| ==> front[i] == items[i];
      TitlesSeenListed(front);
      NonEmptyListed(items[|items| - 1].locationTitles);
    }
  }

  /** The "Locations" paragraph: each non-empty title once, in first-seen order, when there is one. */
  function LocationsText(items: seq<ShoppingLine>): string {
    var locations := Lists.FirstIds(TitlesSeen(items));
    if |locations| > 0 then "\nLocations: " + JoinWith(locations, ", ") else ""
  }

  /** The "Total" paragraph, when some item is priced. */
  function TotalsText(items: seq<ShoppingLine>): string {
    var totals := Totals(items);
    if totals != "" then "\nTotal: " + totals else ""
  }

  /** The message for a shopping list. */
  function ShoppingMessage(name: string, items: seq<ShoppingLine>): string {
    Header(name) + ShoppingLines(items) + LocationsText(items) + TotalsText(items)
  }

  /** The minutes a task item adds to the total: its duration when set and non-zero. */
  function Duration(row: BaseItems.Row): int {
    if row.1.detail.TaskDetail? && row.1.detail.durationMinutes.Some? then row.1.detail.durationMinutes.value else 0
  }

  function TotalMinutes(rows: seq<BaseItems.Row>): int {
    if rows == [] then 0 else TotalMinutes(rows[..|rows| - 1]) + Duration(rows[|rows| - 1])
  }

  function TaskLineText(row: BaseItems.Row): string {
    Mark(row.1.isChecked) + " " + row.1.title + "\n"
  }

  function TaskLines(rows: seq<BaseItems.Row>): string {
    if rows == [] then "" else TaskLines(rows[..|rows| - 1]) + TaskLineText(rows[|rows| - 1])
  }

  /** `String(n).padStart(2, "0")`. */
  function Pad2(s: string): (r: string)
    ensures |r| == if |s| < 2 then 2 else |s|
  {
    if |s| < 2 then seq(2 - |s|, _ => '0') + s else s
  }

  /** A positive number of minutes as hours, a colon, and two-digit minutes. */
  function DurationText(total: int): string
    requires total > 0
  {
    Text.IntToString(total / 60) + ":" + Pad2(Text.IntToString(total % 60))
  }

  /**
   * The duration reads back as the total: the hours and the two minute
   * digits it prints make up `total` minutes, with fewer than 60 minutes.
   */
  lemma DurationReadsBack(total: int)
    requires total > 0
    ensures var h := Text.NatToString(total / 60);
      var m := Pad2(Text.NatToString(total % 60));
      && DurationText(total) == h + ":" + m
      && |m| == 2 && Text.IsDigitChar(m[0]) && Text.IsDigitChar(m[1])
      && Text.DigitsValue(h) * 60 + Text.DigitsValue(m) == total
      && Text.DigitsValue(m) < 60
  {
    var hours := total / 60;
    var minutes := total % 60;
    var m := Pad2(Text.NatToString(minutes));
    Text.DigitsRoundTrip(hours);
    Text.DigitsRoundTrip(minutes);
    if minutes < 10 {
      assert Text.NatToString(minutes) == [Text.DigitChar(minutes)];
      assert m == ['0', Text.DigitChar(minutes)];
      assert m[..1] == ['0'];
      assert [Text.DigitChar(minutes)][..0] == [];
      Text.DigitCharValue(minutes);
    }
  }

  /** The message for a task list: the duration paragraph appears only for a positive total. */
  function TaskMessage(name: string, rows: seq<BaseItems.Row>): string {
    var total := TotalMinutes(rows);
    Header(name) + TaskLines(rows) + (if total > 0 then "\nTotal duration: " + DurationText(total) else "")
  }

  /**
   * A shopping line shows the check state in its first three characters, and
   * two items with the same title and check state print the same line
   * exactly when their quantities agree.
   */
  lemma ShoppingLineShows(a: ShoppingLine, b: ShoppingLine)
    requires a.item.title == b.item.title && a.item.isChecked == b.item.isChecked
    ensures ShoppingLineText(a)[..3] == "[x]" <==> a.item.isChecked
    ensures ShoppingLineText(a) == ShoppingLineText(b) <==> Quantity(a) == Quantity(b)
  {
    var prefix := Mark(a.item.isChecked) + " " + a.item.title;
    var qa, qb := Quantity(a), Quantity(b);
    var ta := (if qa != 1 then " x" + Text.IntToString(qa) else "") + "\n";
    var tb := (if qb != 1 then " x" + Text.IntToString(qb) else "") + "\n";
    assert ShoppingLineText(a) == prefix + ta;
    assert (prefix + ta)[..3] == Mark(a.item.isChecked);
    assert ShoppingLineText(b) == prefix + tb;
    if ShoppingLineText(a) == ShoppingLineText(b) {
      assert ta == (prefix + ta)[|prefix|..] == (prefix + tb)[|prefix|..] == tb;
      if qa != 1 && qb != 1 {
        assert Text.IntToString(qa) == ta[2..|ta| - 1] == tb[2..|tb| - 1] == Text.IntToString(qb);
        Text.IntToStringInjective(qa, qb);
      }
    }
  }

  /** The "Locations" paragraph lists exactly the non-empty titles of the items' locations, each once. */
  lemma LocationsListed(items: seq<ShoppingLine>)
    ensures var locations := Lists.FirstIds(TitlesSeen(items));
      && Distinct(locations)
      && forall t :: t in locations <==> t != "" && exists i :: 0 <= i < |items| && t in items[i].locationTitles
  {
    TitlesSeenListed(items);
  }

  /**
   * The shopping message: the header, one line per item, then the locations
   * and totals, each gathered in one loop over the items.
   */
  method BuildShoppingText(name: string, items: seq<ShoppingLine>) returns (text: string)
    ensures text == ShoppingMessage(name, items)
  {
    text := AppendShoppingLines(Header(name), items);
    var locations := CollectLocations(items);
    var totals := FormatShoppingTotals(items);
    ghost var lines := text;
    if |locations| > 0 {
      text := text + ("\nLocations: " + JoinWith(locations, ", "));
    }
    assert text == lines + LocationsText(items);
    ghost var located := text;
    if totals != "" {
      text := text + ("\nTotal: " + totals);
    }
    assert text == located + TotalsText(items);
  }

  lemma AppendAssoc(a: string, b: string, c: string)
    ensures (a + b) + c == a + (b + c)
  {
  }

  /** The item loop of the shopping message: one line appended per item. */
  method AppendShoppingLines(start: string, items: seq<ShoppingLine>) returns (text: string)
    ensures text == start + ShoppingLines(items)
  {
    text := start;
    for i := 0 to |items|
      invariant text == start + ShoppingLines(items[..i])
    {
      var it := items[i];
      assert items[..i + 1][..i] == items[..i];
      assert ShoppingLines(items[..i + 1]) == ShoppingLines(items[..i]) + ShoppingLineText(it);
      AppendAssoc(start, ShoppingLines(items[..i]), ShoppingLineText(it));
      text := text + ShoppingLineText(it);
    }
    assert items[..|items|] == items;
  }

  /** The location titles of the message: a set filled item by item, link by link, with the non-empty titles. */
  method CollectLocations(items: seq<ShoppingLine>) returns (locations: seq<string>)
    ensures locations == Lists.FirstIds(TitlesSeen(items))
  {
    locations := [];
    for i := 0 to |items|
      invariant locations == Lists.FirstIds(TitlesSeen(items[..i]))
    {
      var titles := items[i].locationTitles;
      assert items[..i + 1][..i] == items[..i];
      assert TitlesSeen(items[..i + 1]) == TitlesSeen(items[..i]) + NonEmpty(titles);
      assert titles[..0] == [];
      assert TitlesSeen(items[..i]) + NonEmpty(titles[..0]) == TitlesSeen(items[..i]);
      for j := 0 to |titles|
        invariant locations == Lists.FirstIds(TitlesSeen(items[..i]) + NonEmpty(titles[..j]))
      {
        var title := titles[j];
        assert titles[..j + 1][..j] == titles[..j];
        if title != "" {
          assert TitlesSeen(items[..i]) + NonEmpty(titles[..j + 1]) == (TitlesSeen(items[..i]) + NonEmpty(titles[..j])) + [title];
          Lists.FirstIdsSnoc(TitlesSeen(items[..i]) + NonEmpty(titles[..j]), title);
          if title !in locations {
            locations := locations + [title];
          }
        } else {
          assert NonEmpty(titles[..j + 1]) == NonEmpty(titles[..j]);
        }
      }
      assert titles[..|titles|] == titles;
    }
    assert items[..|items|] == items;
  }

  /** One more row adds its line and its duration. */
  lemma TaskStep(rows: seq<BaseItems.Row>, i: nat)
    requires i < |rows|
    ensures TaskLines(rows[..i + 1]) == TaskLines(rows[..i]) + TaskLineText(rows[i])
    ensures TotalMinutes(rows[..i + 1]) == TotalMinutes(rows[..i]) + Duration(rows[i])
  {
    assert rows[..i + 1][..i] == rows[..i];
  }

  /** The task message: the header, one line per item while summing the durations, then the duration paragraph. */
  method BuildTaskText(name: string, rows: seq<BaseItems.Row>) returns (text: string)
    ensures text == TaskMessage(name, rows)
  {
    text := Header(name);
    var totalMinutes := 0;
    for i := 0 to |rows|
      invariant text == Header(name) + TaskLines(rows[..i])
      invariant totalMinutes == TotalMinutes(rows[..i])
    {
      var row := rows[i];
      TaskStep(rows, i);
      AppendAssoc(Header(name), TaskLines(rows[..i]), TaskLineText(row));
      text := text + TaskLineText(row);
      if row.1.detail.TaskDetail? && row.1.detail.durationMinutes.Some? && row.1.detail.durationMinutes.value != 0 {
        totalMinutes := totalMinutes + row.1.detail.durationMinutes.value;
      }
    }
    assert rows[..|rows|] == rows;
    if totalMinutes > 0 {
      text := text + ("\nTotal duration: " + DurationText(totalMinutes));
    }
  }

  // ---- sendList --------------------------------------------------------------------------

  /** The titles are those of the existing locations linked to the item, in some order. */
  ghost predicate TitlesOfLinks(links: set<(ItemId, LocationId)>, locations: map<LocationId, Location>, itemId: ItemId, titles: seq<string>) {
    forall t :: t in titles <==> exists l :: (itemId, l) in links && l in locations && locations[l].title == t
  }

  function RowsOf(lines: seq<ShoppingLine>): seq<BaseItems.Row> {
    seq(|lines|, i requires 0 <= i < |lines| => (lines[i].id, lines[i].item))
  }

  /** The shopping items of a list with their locations included. */
  ghost predicate ShoppingFetched(table: map<ItemId, Item>, links: set<(ItemId, LocationId)>, locations: map<LocationId, Location>,
                                  listId: ListId, lines: seq<ShoppingLine>) {
    && BaseItems.ListedRows(table, listId, RowsOf(lines))
    && forall i :: 0 <= i < |lines| ==> TitlesOfLinks(links, locations, lines[i].id, lines[i].locationTitles)
  }

  /** `include: { locations: { include: { location: true } } }` for one item: the titles of its linked locations. */
  method LinkedTitles(links: set<(ItemId, LocationId)>, locations: map<LocationId, Location>, itemId: ItemId) returns (titles: seq<string>)
    ensures TitlesOfLinks(links, locations, itemId, titles)
  {
    titles := [];
    var rest := set p | p in links && p.0 == itemId;
    while rest != {}
      invariant forall p :: p in rest ==> p in links && p.0 == itemId
      invariant forall l :: (itemId, l) in links && (itemId, l) !in rest && l in locations ==> locations[l].title in titles
      invariant forall t :: t in titles ==> exists l :: (itemId, l) in links && l in locations && locations[l].title == t
      decreases |rest|
    {
      var p :| p in rest;
      if p.1 in locations {
        titles := titles + [locations[p.1].title];
      }
      rest := rest - {p};
    }
  }

  /** The shopping items of the list, ordered, each with its location titles. */
  method FetchShopping(db: Db, listId: ListId) returns (lines: seq<ShoppingLine>)
    ensures ShoppingFetched(db.shopping, db.itemLocations, db.locations, listId, lines)
  {
    var rows := BaseItems.FetchOrdered(db.shopping, listId);
    lines := [];
    for i := 0 to |rows|
      invariant |lines| == i
      invariant forall k :: 0 <= k < i ==> lines[k].id == rows[k].0 && lines[k].item == rows[k].1
      invariant forall k :: 0 <= k < i ==> TitlesOfLinks(db.itemLocations, db.locations, lines[k].id, lines[k].locationTitles)
    {
      var titles := LinkedTitles(db.itemLocations, db.locations, rows[i].0);
      lines := lines + [ShoppingLine(rows[i].0, rows[i].1, titles)];
    }
    assert RowsOf(lines) == rows;
  }

  /** What `sendList` hands to Telegram: one message per id, all with the same text; `sent` is the number of ids. */
  datatype Sent = Sent(telegramIds: set<string>, text: string)

  /** The checks of `sendList`, in order: READ access to the list, then the recipient rules. */
  function Prepared(lists: map<ListId, ListRow>, listShares: set<(ListId, FamilyId)>, members: map<(FamilyId, UserId), Member>,
                    users: map<UserId, User>, userId: UserId, listId: ListId, dto: SendRequest)
    : Result<(ListsAccess.ListWithShares, set<string>)>
  {
    var list :- ListsAccess.Access(lists, listShares, members, userId, listId, Read);
    var telegramIds :- Recipients(list.familyIds, members, users, userId, dto);
    Ok((list, telegramIds))
  }

  /**
   * `sendList` up to the send: the checks, then the message text built from
   * the list's items in the listing order.
   */
  method SendListMessage(db: Db, userId: UserId, listId: ListId, dto: SendRequest) returns (r: Result<Sent>)
    ensures var p := Prepared(db.lists, db.listShares, db.members, db.users, userId, listId, dto);
      && (r.Ok? <==> p.Ok?)
      && (p.Err? ==> r == Err(p.failure))
      && (r.Ok? ==> r.value.telegramIds == p.value.1)
    ensures var p := Prepared(db.lists, db.listShares, db.members, db.users, userId, listId, dto);
      r.Ok? && p.value.0.row.listType == ShoppingList ==>
        exists lines :: ShoppingFetched(db.shopping, db.itemLocations, db.locations, listId, lines)
                        && r.value.text == ShoppingMessage(p.value.0.row.name, lines)
    ensures var p := Prepared(db.lists, db.listShares, db.members, db.users, userId, listId, dto);
      r.Ok? && p.value.0.row.listType == TaskList ==>
        exists rows :: BaseItems.ListedRows(db.tasks, listId, rows) && r.value.text == TaskMessage(p.value.0.row.name, rows)
  {
    var access := ListsAccess.AssertAccess(db, userId, listId, Read);
    if access.Err? {
      return Err(access.failure);
    }
    var list := access.value;
    var recipients := Recipients(list.familyIds, db.members, db.users, userId, dto);
    if recipients.Err? {
      return Err(recipients.failure);
    }
    var text;
    if list.row.listType == ShoppingList {
      var lines := FetchShopping(db, listId);
      text := BuildShoppingText(list.row.name, lines);
    } else {
      var rows := BaseItems.FetchOrdered(db.tasks, listId);
      text := BuildTaskText(list.row.name, rows);
      assert BaseItems.ListedRows(db.tasks, listId, rows);
    }
    r := Ok(Sent(recipients.value, text));
  }
}
