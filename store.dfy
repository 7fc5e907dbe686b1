/**
 * The persistent state every service reads and writes: one field per
 * database table. Join tables (shares, default locations, item locations)
 * are sets of id pairs in the order of their unique key.
 */
module Store {
  import opened Common

  datatype Role = Admin | Reader
  datatype AccessLevel = Read | Write
  datatype ListType = ShoppingList | TaskList
  datatype SortMode = ByCreatedAt | Manual
  datatype PriceType = NoPrice | Exact | Range

  /** A product's (or template item's) default price. Prices are whole numbers. */
  datatype Price = Price(priceType: PriceType, currency: Option<string>, min: Option<int>, max: Option<int>)

  const NoPriceSet: Price := Price(NoPrice, None, None, None)

  datatype ListRow = ListRow(
    ownerId: UserId, name: string, listType: ListType, icon: Option<string>, color: Option<string>,
    sortMode: SortMode, groupByLocations: bool, tags: Option<seq<string>>, note: Option<string>,
    sortIndex: int, createdAt: int)

  /** The kind-specific columns of a list item. */
  datatype Detail =
    | ShoppingDetail(productId: Option<ProductId>, quantity: int, price: Price)
    | TaskDetail(durationMinutes: Option<int>)

  /** A shopping or task item; `checkedAt` is set exactly when the item is checked (see `CheckedConsistent`). */
  datatype Item = Item(
    listId: ListId, title: string, normalizedKey: string, isChecked: bool, checkedAt: Option<int>,
    repeatEveryDays: Option<int>, sortIndex: int, createdAt: int, detail: Detail)

  datatype Product = Product(ownerId: UserId, title: string, normalizedKey: string, price: Price, sortIndex: int, createdAt: int)
  datatype Location = Location(ownerId: UserId, title: string, normalizedKey: string, sortIndex: int, createdAt: int)
  datatype Template = Template(ownerId: UserId, title: string, normalizedKey: string, sortIndex: int, createdAt: int)
  datatype TemplateItem = TemplateItem(
    templateId: TemplateId, productId: Option<ProductId>, title: string, quantity: int, sortIndex: int, price: Price)

  datatype Family = Family(name: string, createdById: UserId, createdAt: int)
  datatype Member = Member(role: Role, createdAt: int)
  datatype Invite = Invite(familyId: FamilyId, createdById: UserId, usedAt: Option<int>, usedById: Option<UserId>)
  datatype User = User(telegramId: Option<string>)

  class Db {
    var lists: map<ListId, ListRow>
    var listShares: set<(ListId, FamilyId)>
    var families: map<FamilyId, Family>
    var members: map<(FamilyId, UserId), Member>
    /** Invites by their (unique) token. */
    var invites: map<string, Invite>
    /** `userSettings.favoriteFamilyId`, for the users that have a settings row. */
    var favorites: map<UserId, Option<FamilyId>>
    var users: map<UserId, User>
    var shopping: map<ItemId, Item>
    var tasks: map<ItemId, Item>
    var itemLocations: set<(ItemId, LocationId)>
    var products: map<ProductId, Product>
    var productShares: set<(FamilyId, ProductId)>
    var productLocations: set<(ProductId, LocationId)>
    var locations: map<LocationId, Location>
    var locationShares: set<(FamilyId, LocationId)>
    var templates: map<TemplateId, Template>
    var templateItems: map<TemplateItemId, TemplateItem>
    var templateShares: set<(FamilyId, TemplateId)>

    constructor ()
      ensures lists == map[] && listShares == {} && families == map[] && members == map[]
      ensures invites == map[] && favorites == map[] && users == map[]
      ensures shopping == map[] && tasks == map[] && itemLocations == {}
      ensures products == map[] && productShares == {} && productLocations == {}
      ensures locations == map[] && locationShares == {}
      ensures templates == map[] && templateItems == map[] && templateShares == {}
    {
      lists, listShares, families, members := map[], {}, map[], map[];
      invites, favorites, users := map[], map[], map[];
      shopping, tasks, itemLocations := map[], map[], {};
      products, productShares, productLocations := map[], {}, {};
      locations, locationShares := map[], {};
      templates, templateItems, templateShares := map[], map[], {};
    }
  }

  /** The families a list is shared with. */
  function SharesOf(listShares: set<(ListId, FamilyId)>, listId: ListId): set<FamilyId> {
    set p | p in listShares && p.0 == listId :: p.1
  }

  /** The user's role in a family, if they are a member. */
  function RoleIn(members: map<(FamilyId, UserId), Member>, familyId: FamilyId, userId: UserId): Option<Role> {
    if (familyId, userId) in members then Some(members[(familyId, userId)].role) else None
  }

  /** `isChecked` and `checkedAt` agree for every item of a table. */
  ghost predicate CheckedConsistent(items: map<ItemId, Item>) {
    forall id :: id in items ==> (items[id].isChecked <==> items[id].checkedAt.Some?)
  }
}
