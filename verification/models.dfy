/** The document shapes of the backend's collections (users, restaurants,
    menus, orders) and the user schema's creation defaults. */
module Models {
  import opened Common

  /** A user document. Timestamps (`lastLogin` and the token expiries) are
      milliseconds since the epoch, as `Date.now()` returns them. */
  datatype User = User(
    fullname: string,
    email: string,
    password: string,              // the bcrypt hash, never the plain text
    contact: int,
    address: string,
    city: string,
    country: string,
    profilePicture: string,
    admin: bool,
    lastLogin: int,
    isVerified: bool,
    resetPasswordToken: Option<string>,
    resetPasswordTokenExpiresAt: Option<int>,
    verificationToken: Option<string>,
    verificationTokenExpiresAt: Option<int>)

  /** A restaurant document: `user` is the owner, `menus` the ordered menu ids. */
  datatype Restaurant = Restaurant(
    user: Id,
    restaurantName: string,
    city: string,
    country: string,
    deliveryTime: int,
    cuisines: seq<string>,
    imageUrl: string,
    menus: seq<Id>)

  /** A menu document; `price` is in cents. */
  datatype Menu = Menu(name: string, description: string, price: int, image: string)

  /** One line of the cart a client sends at checkout; `price` is the
      client's own figure, in cents. */
  datatype CartItem = CartItem(menuId: Id, name: string, image: string, price: int, quantity: int)

  datatype DeliveryDetails = DeliveryDetails(
    name: string, email: string, address: string, city: string, contact: string, country: string)

  /** An order document; `totalAmount` is in cents. */
  datatype Order = Order(
    restaurant: Id,
    user: Id,
    deliveryDetails: DeliveryDetails,
    cartItems: seq<CartItem>,
    status: string,
    totalAmount: int)

  const DefaultAddress := "Update your address"
  const DefaultCity := "Update your city"
  const DefaultCountry := "Update your country"

  /** The fields a freshly created user has from the schema's defaults:
      placeholder address, city and country, no picture, neither admin nor
      verified, and no password-reset token. */
  predicate HasSchemaDefaults(u: User) {
    && u.address == DefaultAddress
    && u.city == DefaultCity
    && u.country == DefaultCountry
    && u.profilePicture == ""
    && !u.admin
    && !u.isVerified
    && u.resetPasswordToken.None?
    && u.resetPasswordTokenExpiresAt.None?
  }

  /** `User.create` with the given fields: the schema rejects an empty
      required string (fullname, email, the password hash) and fills in every
      field not given from its defaults; `lastLogin` defaults to `now`. */
  function CreateUser(fullname: string, email: string, password: string, contact: int,
                      verificationToken: Option<string>, verificationTokenExpiresAt: Option<int>,
                      now: int): (r: Option<User>)
    ensures r.Some? <==> fullname != "" && email != "" && password != ""
    ensures r.Some? ==> HasSchemaDefaults(r.value)
    ensures r.Some? ==> r.value.email == email && r.value.fullname == fullname
                        && r.value.password == password && r.value.contact == contact
                        && r.value.lastLogin == now
    ensures r.Some? ==> r.value.verificationToken == verificationToken
                        && r.value.verificationTokenExpiresAt == verificationTokenExpiresAt
  {
    if fullname == "" || email == "" || password == "" then None
    else Some(User(fullname, email, password, contact, DefaultAddress, DefaultCity, DefaultCountry,
                   "", false, now, false, None, None, verificationToken, verificationTokenExpiresAt))
  }

  /** The unique index on `email`: no two users share an email. */
  ghost predicate UniqueEmails(users: map<Id, User>) {
    forall a, b :: a in users && b in users && users[a].email == users[b].email ==> a == b
  }

  /** At most one restaurant per owning user. */
  ghost predicate OneRestaurantPerOwner(restaurants: map<Id, Restaurant>) {
    forall a, b :: a in restaurants && b in restaurants && restaurants[a].user == restaurants[b].user ==> a == b
  }

  predicate EmailTaken(users: map<Id, User>, email: string) {
    exists id :: id in users && users[id].email == email
  }

  predicate OwnsRestaurant(restaurants: map<Id, Restaurant>, owner: Id) {
    exists id :: id in restaurants && restaurants[id].user == owner
  }

  /** Adding a user whose email nobody has keeps the emails unique. */
  lemma AddUserKeepsEmailsUnique(users: map<Id, User>, id: Id, u: User)
    requires UniqueEmails(users)
    requires id !in users && !EmailTaken(users, u.email)
    ensures UniqueEmails(users[id := u])
  {
  }

  /** Some user other than `self` has this email. */
  predicate EmailTakenByOther(users: map<Id, User>, email: string, self: Id) {
    exists id :: id in users && id != self && users[id].email == email
  }

  /** Replacing a user by a record whose email no other user has keeps the
      emails unique. */
  lemma ReplaceUserKeepsEmailsUnique(users: map<Id, User>, id: Id, u: User)
    requires UniqueEmails(users)
    requires id in users && !EmailTakenByOther(users, u.email, id)
    ensures UniqueEmails(users[id := u])
  {
  }

  /** Adding a restaurant for an owner who has none keeps one restaurant per owner. */
  lemma AddRestaurantKeepsOnePerOwner(restaurants: map<Id, Restaurant>, id: Id, r: Restaurant)
    requires OneRestaurantPerOwner(restaurants)
    requires id !in restaurants && !OwnsRestaurant(restaurants, r.user)
    ensures OneRestaurantPerOwner(restaurants[id := r])
  {
  }
}

/** The document store: one map per collection, from document id to record. */
module Db {
  import opened Common
  import opened Models

  ghost predicate KeysBelow(keys: set<Id>, bound: Id) {
    forall id :: id in keys ==> id < bound
  }

  class Database {
    var users: map<Id, User>
    var restaurants: map<Id, Restaurant>
    var menus: map<Id, Menu>
    var orders: map<Id, Order>
    /** The next id to hand out; stands for ObjectId generation. */
    var nextId: Id

    /** The store's invariant: every stored id was handed out already, emails
        are unique and each user owns at most one restaurant. */
    ghost predicate Valid()
      reads this
    {
      && KeysBelow(users.Keys, nextId)
      && KeysBelow(restaurants.Keys, nextId)
      && KeysBelow(menus.Keys, nextId)
      && KeysBelow(orders.Keys, nextId)
      && UniqueEmails(users)
      && OneRestaurantPerOwner(restaurants)
    }

    constructor ()
      ensures Valid()
      ensures users == map[] && restaurants == map[] && menus == map[] && orders == map[]
    {
      users, restaurants, menus, orders := map[], map[], map[], map[];
      nextId := 0;
    }

    /** Hands out an id no collection uses yet. */
    method NewId() returns (id: Id)
      requires Valid()
      modifies this`nextId
      ensures Valid()
      ensures id == old(nextId) && nextId == id + 1
      ensures id !in users && id !in restaurants && id !in menus && id !in orders
    {
      id := nextId;
      nextId := nextId + 1;
    }
  }
}
