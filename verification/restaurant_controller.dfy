/** Restaurant creation and update, the owner's order list, order-status
    overwrite and restaurant search (backend/controllers/restaurantController.ts).
    The image host is a parameter: `upload` is `None` when the request has no
    file and `Some(url)` with the URL the host returned otherwise. */
module RestaurantController {
  import opened Common
  import opened Models
  import opened Db

  /** The text fields of a create or update request, `cuisines` already parsed. */
  datatype RestaurantFields = RestaurantFields(
    restaurantName: string, city: string, country: string, deliveryTime: int, cuisines: seq<string>)

  /** `Restaurant.findOne({ user: owner })`. */
  method FindOwned(db: Database, owner: Id) returns (r: Option<Id>)
    ensures r.None? <==> !OwnsRestaurant(db.restaurants, owner)
    ensures r.Some? ==> r.value in db.restaurants && db.restaurants[r.value].user == owner
  {
    if exists id :: id in db.restaurants && db.restaurants[id].user == owner {
      var id :| id in db.restaurants && db.restaurants[id].user == owner;
      r := Some(id);
    } else {
      r := None;
    }
  }

  /** `createRestaurant`: refuse a second restaurant for the same owner (checked
      before the image), refuse a request without an image, otherwise add one
      restaurant owned by the caller with no menus. */
  method CreateRestaurant(db: Database, caller: Id, fields: RestaurantFields, upload: Option<string>)
    returns (reply: Reply, created: Option<Id>)
    requires db.Valid()
    modifies db
    ensures db.Valid()
    ensures db.users == old(db.users) && db.menus == old(db.menus) && db.orders == old(db.orders)
    ensures OwnsRestaurant(old(db.restaurants), caller) ==>
              reply == Reply(400, "Restaurant already exists for this user")
    ensures !OwnsRestaurant(old(db.restaurants), caller) && upload.None? ==>
              reply == Reply(400, "Image is required")
    ensures created.None? ==> db.restaurants == old(db.restaurants)
    ensures created.Some? <==> !OwnsRestaurant(old(db.restaurants), caller) && upload.Some?
    ensures created.Some? ==>
              && reply == Reply(201, "Restaurant Added")
              && created.value !in old(db.restaurants)
              && db.restaurants == old(db.restaurants)[created.value :=
                   Restaurant(caller, fields.restaurantName, fields.city, fields.country,
                              fields.deliveryTime, fields.cuisines, upload.value, [])]
  {
    var existing := FindOwned(db, caller);
    if existing.Some? {
      return Reply(400, "Restaurant already exists for this user"), None;
    }
    if upload.None? {
      return Reply(400, "Image is required"), None;
    }
    var id := db.NewId();
    var restaurant := Restaurant(caller, fields.restaurantName, fields.city, fields.country,
                                 fields.deliveryTime, fields.cuisines, upload.value, []);
    AddRestaurantKeepsOnePerOwner(db.restaurants, id, restaurant);
    db.restaurants := db.restaurants[id := restaurant];
    reply, created := Reply(201, "Restaurant Added"), Some(id);
  }

  /** The restaurant after a full-field update: every text field is
      overwritten, the image only when a file was uploaded; the owner and the
      menus stay. */
  function Overwrite(r: Restaurant, fields: RestaurantFields, upload: Option<string>): (u: Restaurant)
    ensures u.restaurantName == fields.restaurantName && u.city == fields.city && u.country == fields.country
    ensures u.deliveryTime == fields.deliveryTime && u.cuisines == fields.cuisines
    ensures u.imageUrl == if upload.Some? then upload.value else r.imageUrl
    ensures u.user == r.user && u.menus == r.menus
  {
    var image := if upload.Some? then upload.value else r.imageUrl;
    r.(restaurantName := fields.restaurantName, city := fields.city, country := fields.country,
       deliveryTime := fields.deliveryTime, cuisines := fields.cuisines, imageUrl := image)
  }

  /** `updateRestaurant` on the caller's restaurant. */
  method UpdateRestaurant(db: Database, caller: Id, fields: RestaurantFields, upload: Option<string>)
    returns (reply: Reply)
    requires db.Valid()
    modifies db`restaurants
    ensures db.Valid()
    ensures !OwnsRestaurant(old(db.restaurants), caller) ==>
              reply == Reply(404, "Restaurant not found") && db.restaurants == old(db.restaurants)
    ensures OwnsRestaurant(old(db.restaurants), caller) ==> reply == Reply(200, "Restaurant updated")
    ensures forall id :: id in old(db.restaurants) && old(db.restaurants)[id].user == caller ==>
              db.restaurants == old(db.restaurants)[id := Overwrite(old(db.restaurants)[id], fields, upload)]
  {
    var owned := FindOwned(db, caller);
    if owned.None? {
      return Reply(404, "Restaurant not found");
    }
    var id := owned.value;
    var restaurant := db.restaurants[id];
    restaurant := restaurant.(restaurantName := fields.restaurantName, city := fields.city,
                              country := fields.country, deliveryTime := fields.deliveryTime,
                              cuisines := fields.cuisines);
    if upload.Some? {
      restaurant := restaurant.(imageUrl := upload.value);
    }
    db.restaurants := db.restaurants[id := restaurant];
    reply := Reply(200, "Restaurant updated");
  }

  /** `getRestaurantOrder`: the orders placed with the caller's restaurant. */
  method GetRestaurantOrder(db: Database, caller: Id) returns (reply: Reply, orders: map<Id, Order>)
    requires db.Valid()
    ensures !OwnsRestaurant(db.restaurants, caller) ==>
              reply == Reply(404, "Restaurant not found") && orders == map[]
    ensures OwnsRestaurant(db.restaurants, caller) ==> reply == Reply(200, "")
    ensures OwnsRestaurant(db.restaurants, caller) ==>
              forall id :: id in orders <==>
                && id in db.orders
                && db.orders[id].restaurant in db.restaurants
                && db.restaurants[db.orders[id].restaurant].user == caller
    ensures forall id :: id in orders ==> id in db.orders && orders[id] == db.orders[id]
  {
    var owned := FindOwned(db, caller);
    if owned.None? {
      return Reply(404, "Restaurant not found"), map[];
    }
    var rid := owned.value;
    orders := map id | id in db.orders && db.orders[id].restaurant == rid :: db.orders[id];
    reply := Reply(200, "");
  }

  /** `updateOrderStatus`: any status string is accepted, with no check of
      the transition and no check of who asks. */
  method UpdateOrderStatus(db: Database, orderId: Id, status: string) returns (reply: Reply)
    requires db.Valid()
    modifies db`orders
    ensures db.Valid()
    ensures orderId !in old(db.orders) ==>
              reply == Reply(404, "Order not found") && db.orders == old(db.orders)
    ensures orderId in old(db.orders) ==>
              && reply == Reply(200, "Status updated")
              && db.orders == old(db.orders)[orderId := old(db.orders)[orderId].(status := status)]
  {
    if orderId !in db.orders {
      return Reply(404, "Order not found");
    }
    var order := db.orders[orderId];
    order := order.(status := status);
    db.orders := db.orders[orderId := order];
    reply := Reply(200, "Status updated");
  }

  // ---------------------------------------------------------------------
  // Search

  /** `String.prototype.split(",")`: the pieces between commas, always at
      least one. */
  function Split(s: string): (parts: seq<string>)
    ensures |parts| >= 1
    ensures forall p :: p in parts ==> ',' !in p
  {
    if s == [] then [""]
    else
      var rest := Split(s[1..]);
      if s[0] == ',' then [""] + rest
      else [[s[0]] + rest[0]] + rest[1..]
  }

  /** `Array.prototype.join(",")` of a non-empty list of pieces. */
  function Join(parts: seq<string>): string
    requires |parts| >= 1
  {
    if |parts| == 1 then parts[0] else parts[0] + "," + Join(parts[1..])
  }

  /** `selectedCuisines.join(",")` as the client sends it; [] joins to "". */
  function JoinAll(parts: seq<string>): string {
    if parts == [] then "" else Join(parts)
  }

  /** `filter(cuisine => cuisine)`: drop the empty pieces, keep the order. */
  function NonEmpty(parts: seq<string>): (r: seq<string>)
    ensures |r| <= |parts|
    ensures forall p :: p in r <==> p in parts && p != ""
    ensures multiset(r) == multiset(parts)["" := 0]
  {
    if parts == [] then []
    else if parts[0] == "" then (assert parts == [parts[0]] + parts[1..]; NonEmpty(parts[1..]))
    else (assert parts == [parts[0]] + parts[1..]; [parts[0]] + NonEmpty(parts[1..]))
  }

  /** Filtering works piecewise, so the kept pieces stay in their order. */
  lemma {:induction false} NonEmptyAppend(a: seq<string>, b: seq<string>)
    ensures NonEmpty(a + b) == NonEmpty(a) + NonEmpty(b)
  {
    if a == [] {
      assert a + b == b;
    } else {
      assert (a + b)[1..] == a[1..] + b;
      NonEmptyAppend(a[1..], b);
    }
  }

  /** The cuisine filter of line 172: the comma-split of the query parameter
      without empty pieces. */
  function SelectedCuisines(param: string): (r: seq<string>)
    ensures forall c :: c in r ==> c != "" && ',' !in c
  {
    NonEmpty(Split(param))
  }

  /** Joining the split pieces with commas gives back the original string. */
  lemma {:induction false} JoinSplit(s: string)
    ensures Join(Split(s)) == s
    decreases |s|
  {
    if s != [] {
      var rest := Split(s[1..]);
      JoinSplit(s[1..]);
      if s[0] == ',' {
        assert ([""] + rest)[1..] == rest;
        assert s == "," + s[1..];
      } else if |rest| == 1 {
        assert s == [s[0]] + s[1..];
      } else {
        var parts := [[s[0]] + rest[0]] + rest[1..];
        assert parts[1..] == rest[1..];
        assert Join(rest) == rest[0] + "," + Join(rest[1..]);
        assert s == [s[0]] + s[1..];
      }
    }
  }

  /** A comma-free string splits into itself. */
  lemma {:induction false} SplitCommaFree(a: string)
    requires ',' !in a
    ensures Split(a) == [a]
    decreases |a|
  {
    if a != [] {
      assert ',' !in a[1..] by {
        forall i | 0 <= i < |a[1..]| ensures a[1..][i] != ',' { assert a[1..][i] == a[i + 1]; }
      }
      SplitCommaFree(a[1..]);
      assert a == [a[0]] + a[1..];
    }
  }

  /** Splitting stops at the first comma. */
  lemma {:induction false} SplitAtComma(a: string, b: string)
    requires ',' !in a
    ensures Split(a + "," + b) == [a] + Split(b)
    decreases |a|
  {
    if a == [] {
      assert a + "," + b == [','] + b;
      assert ([','] + b)[1..] == b;
    } else {
      var s := a + "," + b;
      assert s[1..] == a[1..] + "," + b;
      assert ',' !in a[1..] by {
        forall i | 0 <= i < |a[1..]| ensures a[1..][i] != ',' { assert a[1..][i] == a[i + 1]; }
      }
      SplitAtComma(a[1..], b);
      assert [a[0]] + a[1..] == a;
    }
  }

  /** Splitting undoes joining when no piece holds a comma. */
  lemma {:induction false} SplitJoin(parts: seq<string>)
    requires |parts| >= 1
    requires forall p :: p in parts ==> ',' !in p
    ensures Split(Join(parts)) == parts
    decreases |parts|
  {
    if |parts| == 1 {
      SplitCommaFree(parts[0]);
    } else {
      SplitJoin(parts[1..]);
      SplitAtComma(parts[0], Join(parts[1..]));
      assert parts == [parts[0]] + parts[1..];
    }
  }

  /** Dropping empty pieces changes nothing when there are none. */
  lemma {:induction false} NonEmptyOfNonEmpty(parts: seq<string>)
    requires forall p :: p in parts ==> p != ""
    ensures NonEmpty(parts) == parts
    decreases |parts|
  {
    if parts != [] {
      assert parts[0] in parts;
      assert forall p :: p in parts[1..] ==> p in parts;
      NonEmptyOfNonEmpty(parts[1..]);
      assert parts == [parts[0]] + parts[1..];
    }
  }

  /** The client joins its applied cuisine filters with commas; for
      non-empty, comma-free cuisines the server's split recovers exactly that
      list, in order. */
  lemma CuisinesRoundTrip(cuisines: seq<string>)
    requires forall c :: c in cuisines ==> c != "" && ',' !in c
    ensures SelectedCuisines(JoinAll(cuisines)) == cuisines
  {
    if cuisines != [] {
      SplitJoin(cuisines);
      NonEmptyOfNonEmpty(cuisines);
    }
  }

  /** ASCII lower-casing, the case folding of the `i` regex option. */
  function LowerChar(c: char): char {
    if 'A' <= c <= 'Z' then (c as int + 32) as char else c
  }

  /** Case folding: no upper-case letter is left, and every character that
      is not an upper-case letter is kept where it was. */
  function Lower(s: string): (r: string)
    ensures |r| == |s|
    ensures forall i :: 0 <= i < |r| ==> !('A' <= r[i] <= 'Z')
    ensures forall i :: 0 <= i < |s| && !('A' <= s[i] <= 'Z') ==> r[i] == s[i]
    ensures forall i :: 0 <= i < |s| && 'A' <= s[i] <= 'Z' ==>
              'a' <= r[i] <= 'z' && r[i] as int - 'a' as int == s[i] as int - 'A' as int
  {
    seq(|s|, i requires 0 <= i < |s| => LowerChar(s[i]))
  }

  /** Folding an already folded string changes nothing. */
  lemma LowerIdempotent(s: string)
    ensures Lower(Lower(s)) == Lower(s)
  {
  }

  /** Folding commutes with taking a slice. */
  lemma LowerSlice(s: string, i: nat, j: nat)
    requires i <= j <= |s|
    ensures Lower(s)[i..j] == Lower(s[i..j])
  {
  }

  predicate OccursAt(hay: string, needle: string, i: nat)
    requires i + |needle| <= |hay|
  {
    Lower(hay[i..i + |needle|]) == Lower(needle)
  }

  /** A `$regex` match with option `i`, for a pattern read as plain text:
      `needle` occurs in `hay` ignoring case. */
  predicate ContainsCI(hay: string, needle: string): (b: bool)
    ensures needle == "" ==> b
    ensures b ==> |needle| <= |hay|
  {
    assert needle == "" ==> OccursAt(hay, needle, 0);
    exists i: nat :: i + |needle| <= |hay| && OccursAt(hay, needle, i)
  }

  /** The match ignores case on both sides: folding the restaurant's field
      or the search text first gives the same answer. */
  lemma ContainsCIIgnoresCase(hay: string, needle: string)
    ensures ContainsCI(hay, needle) <==> ContainsCI(Lower(hay), Lower(needle))
  {
    var n := |needle|;
    LowerIdempotent(needle);
    forall i: nat | i + n <= |hay|
      ensures OccursAt(hay, needle, i) <==> OccursAt(Lower(hay), Lower(needle), i)
    {
      LowerSlice(hay, i, i + n);
      LowerIdempotent(hay[i..i + n]);
    }
    if ContainsCI(hay, needle) {
      var i: nat :| i + n <= |hay| && OccursAt(hay, needle, i);
      assert OccursAt(Lower(hay), Lower(needle), i);
    }
    if ContainsCI(Lower(hay), Lower(needle)) {
      var i: nat :| i + n <= |Lower(hay)| && OccursAt(Lower(hay), Lower(needle), i);
      assert OccursAt(hay, needle, i);
    }
  }

  /** The `$or` clause of the query; at most one survives (line 188 overwrites line 179). */
  datatype Clause = NameCityCountry(text: string) | NameCuisines(text: string)

  /** The MongoDB query object the handler builds. */
  datatype Query = Query(anyOf: Option<Clause>, cuisinesIn: Option<seq<string>>)

  predicate ClauseHolds(c: Clause, r: Restaurant) {
    match c
    case NameCityCountry(t) =>
      ContainsCI(r.restaurantName, t) || ContainsCI(r.city, t) || ContainsCI(r.country, t)
    case NameCuisines(t) =>
      ContainsCI(r.restaurantName, t) || exists k :: k in r.cuisines && ContainsCI(k, t)
  }

  /** What `Restaurant.find(query)` selects. */
  predicate Matches(q: Query, r: Restaurant) {
    && (q.anyOf.Some? ==> ClauseHolds(q.anyOf.value, r))
    && (q.cuisinesIn.Some? ==> exists k :: k in r.cuisines && k in q.cuisinesIn.value)
  }

  /** The search as the handler behaves, stated per input: a non-empty
      `searchQuery` decides the text match by name or cuisine and the
      `searchText` is then ignored; otherwise a non-empty `searchText` must
      occur in name, city or country; a non-empty cuisine list must share a
      cuisine with the restaurant. */
  predicate SearchMatch(searchText: string, searchQuery: string, cuisines: seq<string>, r: Restaurant) {
    && (searchQuery != "" ==>
          ContainsCI(r.restaurantName, searchQuery) || exists k :: k in r.cuisines && ContainsCI(k, searchQuery))
    && (searchQuery == "" && searchText != "" ==>
          ContainsCI(r.restaurantName, searchText) || ContainsCI(r.city, searchText) || ContainsCI(r.country, searchText))
    && (cuisines != [] ==> exists k :: k in r.cuisines && k in cuisines)
  }

  /** Build the query in the handler's stages: the `searchText` clause, then
      the `searchQuery` clause over it, then the cuisine filter. */
  method BuildQuery(searchText: string, searchQuery: string, cuisines: seq<string>) returns (q: Query)
    ensures forall r :: Matches(q, r) <==> SearchMatch(searchText, searchQuery, cuisines, r)
    ensures searchQuery != "" ==> q.anyOf == Some(NameCuisines(searchQuery))
    ensures searchQuery == "" && searchText != "" ==> q.anyOf == Some(NameCityCountry(searchText))
    ensures searchQuery == "" && searchText == "" ==> q.anyOf.None?
    ensures q.cuisinesIn.Some? <==> cuisines != []
  {
    q := Query(None, None);
    if searchText != "" {
      q := q.(anyOf := Some(NameCityCountry(searchText)));
    }
    if searchQuery != "" {
      q := q.(anyOf := Some(NameCuisines(searchQuery)));
    }
    if |cuisines| > 0 {
      q := q.(cuisinesIn := Some(cuisines));
    }
  }

  /** `searchRestaurant`: every stored restaurant the built query selects. */
  method SearchRestaurant(db: Database, searchText: string, searchQuery: string, selectedCuisines: string)
    returns (reply: Reply, found: map<Id, Restaurant>)
    ensures reply == Reply(200, "")
    ensures forall id :: id in found <==>
              id in db.restaurants && SearchMatch(searchText, searchQuery, SelectedCuisines(selectedCuisines), db.restaurants[id])
    ensures forall id :: id in found ==> found[id] == db.restaurants[id]
  {
    var cuisines := SelectedCuisines(selectedCuisines);
    var query := BuildQuery(searchText, searchQuery, cuisines);
    found := map id | id in db.restaurants && Matches(query, db.restaurants[id]) :: db.restaurants[id];
    reply := Reply(200, "");
  }

  /** With no text and no cuisine every restaurant matches. */
  lemma EmptySearchMatchesAll(r: Restaurant)
    ensures SearchMatch("", "", SelectedCuisines(""), r)
  {
    assert Split("") == [""];
  }

  /** A non-empty `searchQuery` makes `searchText` irrelevant: the results are
      the same for any two values of it, and city and country no longer count. */
  lemma SearchQueryOverridesSearchText(t1: string, t2: string, searchQuery: string, cuisines: seq<string>, r: Restaurant)
    requires searchQuery != ""
    ensures SearchMatch(t1, searchQuery, cuisines, r) <==> SearchMatch(t2, searchQuery, cuisines, r)
    ensures SearchMatch(t1, searchQuery, cuisines, r) <==>
              SearchMatch(t1, searchQuery, cuisines, r.(city := "", country := ""))
  {
  }

  /** A non-empty cuisine list only ever narrows the result, to restaurants
      sharing a cuisine with it. */
  lemma CuisineFilterNarrows(searchText: string, searchQuery: string, cuisines: seq<string>, r: Restaurant)
    ensures SearchMatch(searchText, searchQuery, cuisines, r) ==> SearchMatch(searchText, searchQuery, [], r)
    ensures SearchMatch(searchText, searchQuery, cuisines, r) && cuisines != [] ==>
              exists k :: k in r.cuisines && k in cuisines
  {
  }
}
