/**
 * The protected service: handlers that read the identity the gateway
 * asserts in the X-User-ID and X-User-Roles headers. A header or query
 * parameter is None when the request does not carry it. Random identifiers
 * and timestamps are parameters.
 */
module ProtectedService {
  import opened Wrappers
  import RolesJson
  import RolesGrammar

  /** The sentinel reported for an identity the request does not carry. */
  const NotProvided: string := "not-provided"

  /** A handler's outcome: a reply, or an exception the handler throws. */
  datatype Response<B> = Respond(status: int, body: B) | Throws

  /** JavaScript truthiness of an optional string: absent and empty are false. */
  predicate Truthy(h: Option<string>) {
    h.Some? && h.value != ""
  }

  /** `userId || 'not-provided'`. */
  function IdOrSentinel(userId: Option<string>): (id: string)
    ensures Truthy(userId) ==> id == userId.value
    ensures !Truthy(userId) ==> id == NotProvided
  {
    if Truthy(userId) then userId.value else NotProvided
  }

  /** The `roles` field: the sentinel string or the decoded array. */
  datatype RolesField = RolesText(text: string) | RolesList(items: seq<string>)

  datatype UserInfo = UserInfo(id: string, roles: RolesField)

  datatype RootBody = RootBody(message: string, data: string, userInfo: UserInfo)

  /**
   * GET /. `randomId` is the identifier drawn for the `data` field. A
   * non-empty roles header that is not an array of strings makes the
   * handler throw.
   */
  function GetRoot(userId: Option<string>, userRoles: Option<string>, randomId: string): (r: Response<RootBody>)
    ensures r.Throws? <==> Truthy(userRoles) && RolesJson.DecodeRoles(userRoles.value).None?
    ensures r.Respond? ==> r.status == 200 && r.body.userInfo.id == IdOrSentinel(userId)
    ensures r.Respond? ==>
      r.body.message == "This is a private root endpoint." && r.body.data == "Random data: " + randomId
    ensures r.Respond? ==>
      (r.body.userInfo.roles == RolesText(NotProvided) <==> !Truthy(userRoles))
    ensures r.Respond? && Truthy(userRoles) ==>
      r.body.userInfo.roles.RolesList? &&
      Some(r.body.userInfo.roles.items) == RolesJson.DecodeRoles(userRoles.value)
  {
    var roles :=
      if Truthy(userRoles) then
        match RolesJson.DecodeRoles(userRoles.value)
        case Some(items) => Some(RolesList(items))
        case None => None
      else Some(RolesText(NotProvided));
    if roles.None? then Throws
    else Respond(200, RootBody("This is a private root endpoint.", "Random data: " + randomId,
                               UserInfo(IdOrSentinel(userId), roles.value)))
  }

  /**
   * The reported id is the sentinel exactly when the header is absent, empty,
   * or itself the text "not-provided"; otherwise it is the header verbatim.
   */
  lemma IdSentinelExactly(userId: Option<string>)
    ensures IdOrSentinel(userId) == NotProvided <==>
      userId == None || userId == Some("") || userId == Some(NotProvided)
    ensures IdOrSentinel(userId) != NotProvided ==> userId == Some(IdOrSentinel(userId))
  {
  }

  /**
   * A request without identity headers is reported as not provided, for both
   * the id and the roles, and never throws.
   */
  lemma NoHeadersNotProvided(randomId: string)
    ensures GetRoot(None, None, randomId) ==
      Respond(200, RootBody("This is a private root endpoint.", "Random data: " + randomId,
                            UserInfo(NotProvided, RolesText(NotProvided))))
  {
  }

  /**
   * Headers written as the gateway writes them (the id, and the roles as
   * JSON) are reported back unchanged.
   */
  lemma TrustedHeadersReportedBack(id: string, roles: seq<string>, randomId: string)
    requires id != ""
    ensures
      var r := GetRoot(Some(id), Some(RolesJson.EncodeRoles(roles)), randomId);
      r.Respond? && r.status == 200 && r.body.userInfo == UserInfo(id, RolesList(roles))
  {
    RolesJson.DecodeEncode(roles);
  }

  /** `X-User-ID: abc-123` and `X-User-Roles: ["user"]` report abc-123 with roles ["user"]. */
  lemma Abc123Example(randomId: string)
    ensures
      var r := GetRoot(Some("abc-123"), Some("[\"user\"]"), randomId);
      r.Respond? && r.body.userInfo == UserInfo("abc-123", RolesList(["user"]))
  {
    assert RolesJson.EncodeRoles(["user"]) == "[\"user\"]";
    TrustedHeadersReportedBack("abc-123", ["user"], randomId);
  }

  /**
   * GET / with a roles header: it throws exactly when the header is
   * non-empty and not the text of a JSON array of strings; otherwise it
   * reports the strings that array stands for.
   */
  lemma RootRolesExactly(userId: Option<string>, text: string, randomId: string)
    ensures GetRoot(userId, Some(text), randomId).Throws? <==>
      text != "" && !exists l, xs :: RolesGrammar.LayoutText(l) == text && RolesGrammar.WritesArray(l, xs)
    ensures forall xs ::
      (text != "" && GetRoot(userId, Some(text), randomId) ==
         Respond(200, RootBody("This is a private root endpoint.", "Random data: " + randomId,
                               UserInfo(IdOrSentinel(userId), RolesList(xs)))))
      <==> (exists l :: RolesGrammar.LayoutText(l) == text && RolesGrammar.WritesArray(l, xs))
  {
    RolesGrammar.DecodeRolesRejects(text);
    forall xs {
      RolesGrammar.DecodeRolesExactly(text, xs);
    }
  }

  /**
   * A non-empty roles header that is not JSON makes GET / throw; it is not
   * reported as the "not-provided" sentinel.
   */
  lemma MalformedRolesThrow(userId: Option<string>, randomId: string)
    ensures GetRoot(userId, Some("[\"user\""), randomId).Throws?
    ensures GetRoot(userId, Some("user"), randomId).Throws?
  {
    RolesJson.MalformedRolesRejected();
  }

  datatype ItemBody = ItemBody(message: string, retrievedBy: Option<string>, timestamp: string)

  const ItemPrefix: string := "Data for item #"

  /**
   * GET /items/:id. `retrievedBy` is the raw header (None is a field left out
   * of the JSON); `timestamp` is the clock reading as ISO text.
   */
  function GetItem(id: string, userId: Option<string>, timestamp: string): (r: Response<ItemBody>)
    ensures r.Respond? && r.status == 200
    ensures r.body.retrievedBy == userId && r.body.timestamp == timestamp
    ensures r.body.message == ItemPrefix + id && r.body.message[|ItemPrefix|..] == id
  {
    Respond(200, ItemBody(ItemPrefix + id, userId, timestamp))
  }

  /** Two different item ids never give the same message. */
  lemma ItemMessageInjective(id1: string, id2: string, userId: Option<string>, timestamp: string)
    requires id1 != id2
    ensures GetItem(id1, userId, timestamp).body.message != GetItem(id2, userId, timestamp).body.message
  {
  }

  datatype Item = Item(id: int, title: string)

  datatype ListBody =
    | Listing(message: string, retrievedBy: Option<string>, items: seq<Item>)
    | Filtered(message: string, retrievedBy: Option<string>, status: string)

  const SearchPrefix: string := "Searching for items with status: "

  /** The fixed listing. */
  const AllItems: seq<Item> := [Item(1, "Buy milk"), Item(2, "Walk the dog")]

  /** GET /items, with the optional `status` query parameter. */
  function ListItems(status: Option<string>, userId: Option<string>): (r: Response<ListBody>)
    ensures r.Respond? && r.status == 200 && r.body.retrievedBy == userId
    ensures r.body.Listing? <==> !Truthy(status)
    ensures r.body.Listing? ==> r.body.message == "Listing all items" && r.body.items == AllItems
    ensures r.body.Filtered? ==>
      && Some(r.body.status) == status
      && r.body.message == SearchPrefix + status.value
      && r.body.message[|SearchPrefix|..] == status.value
  {
    if !Truthy(status) then Respond(200, Listing("Listing all items", userId, AllItems))
    else Respond(200, Filtered(SearchPrefix + status.value, userId, status.value))
  }

  /**
   * Two requests for GET /items get the same reply exactly when both have
   * no (or an empty) status, or both have the same non-empty status.
   */
  lemma ListItemsDistinguishesStatus(s1: Option<string>, s2: Option<string>, userId: Option<string>)
    ensures ListItems(s1, userId) == ListItems(s2, userId) <==>
      (!Truthy(s1) && !Truthy(s2)) || (Truthy(s1) && s1 == s2)
  {
  }

  datatype CreatedBody<J> = CreatedBody(message: string, createdBy: Option<string>, itemReceived: J, assignedId: string)

  /**
   * POST /items. `body` is the parsed JSON request body, None when the body
   * is not JSON (the handler then throws); `assignedId` is the identifier
   * drawn for the new item.
   */
  function PostItem<J>(userId: Option<string>, body: Option<J>, assignedId: string): (r: Response<CreatedBody<J>>)
    ensures r.Respond? <==> body.Some?
    ensures r.Respond? ==>
      && r.status == 201
      && r.body.message == "New item created successfully!"
      && r.body.itemReceived == body.value
      && r.body.createdBy == userId
      && r.body.assignedId == assignedId
  {
    match body
    case None => Throws
    case Some(item) => Respond(201, CreatedBody("New item created successfully!", userId, item, assignedId))
  }
}
