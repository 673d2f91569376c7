/** The synchronous updaters of the client's restaurant store
    (frontend/src/store/useRestaurantStore.ts). Each one maps the old state to
    the new one; the store merges the returned fields into the state, so every
    field an updater does not return keeps its value. */
module RestaurantStore {
  import opened Common

  /** A menu as the client holds it (frontend/src/types/restaurantType.ts). */
  datatype MenuItem = MenuItem(id: string, name: string, description: string, price: int, image: string)

  /** A restaurant as the client holds it, with its menus populated. */
  datatype ClientRestaurant = ClientRestaurant(
    id: string, user: string, restaurantName: string, city: string, country: string,
    deliveryTime: int, cuisines: seq<string>, menus: seq<MenuItem>, imageUrl: string)

  datatype State = State(
    isLoading: bool,
    restaurant: Option<ClientRestaurant>,
    searchedRestaurant: Option<seq<ClientRestaurant>>,
    appliedFilter: seq<string>,
    singleRestaurant: Option<ClientRestaurant>)

  /** The state the store starts with. */
  const Initial := State(false, None, None, [], None)

  /** Before any restaurant is loaded the menu updaters change nothing, and
      the first filter applied is the only one. */
  lemma InitialState(menu: MenuItem, value: string)
    ensures AddMenuToRestaurant(Initial, menu) == Initial
    ensures UpdateMenuToRestaurant(Initial, menu) == Initial
    ensures SetAppliedFilter(Initial, value).appliedFilter == [value]
    ensures ResetAppliedFilter(Initial) == Initial
  {
  }

  /** `addMenuToRestaurant`: append the menu to the held restaurant, if any. */
  function AddMenuToRestaurant(s: State, menu: MenuItem): (t: State)
    ensures t.restaurant.Some? <==> s.restaurant.Some?
    ensures t.restaurant.Some? ==>
              && |t.restaurant.value.menus| == |s.restaurant.value.menus| + 1
              && t.restaurant.value.menus[..|s.restaurant.value.menus|] == s.restaurant.value.menus
              && t.restaurant.value.menus[|s.restaurant.value.menus|] == menu
              && t.restaurant.value.(menus := s.restaurant.value.menus) == s.restaurant.value
    ensures t.(restaurant := s.restaurant) == s
  {
    s.(restaurant :=
         if s.restaurant.Some?
         then Some(s.restaurant.value.(menus := s.restaurant.value.menus + [menu]))
         else None)
  }

  /** Every menu whose id is the updated menu's id, replaced by it. */
  function ReplaceById(menus: seq<MenuItem>, updated: MenuItem): (r: seq<MenuItem>)
    ensures |r| == |menus|
    ensures forall i :: 0 <= i < |menus| ==>
              r[i] == (if menus[i].id == updated.id then updated else menus[i])
  {
    if menus == [] then []
    else [if menus[0].id == updated.id then updated else menus[0]] + ReplaceById(menus[1..], updated)
  }

  /** `updateMenuToRestaurant`: replace by id in the held restaurant; with no
      restaurant the state is returned as it is. */
  function UpdateMenuToRestaurant(s: State, updated: MenuItem): (t: State)
    ensures s.restaurant.None? ==> t == s
    ensures t.restaurant.Some? <==> s.restaurant.Some?
    ensures t.restaurant.Some? ==>
              && t.restaurant.value.menus == ReplaceById(s.restaurant.value.menus, updated)
              && t.restaurant.value.(menus := s.restaurant.value.menus) == s.restaurant.value
    ensures t.(restaurant := s.restaurant) == s
  {
    if s.restaurant.Some?
    then s.(restaurant := Some(s.restaurant.value.(menus := ReplaceById(s.restaurant.value.menus, updated))))
    else s
  }

  /** A menu list without an entry of the updated menu's id is left as it is. */
  lemma ReplaceAbsentIsIdentity(menus: seq<MenuItem>, updated: MenuItem)
    requires forall i :: 0 <= i < |menus| ==> menus[i].id != updated.id
    ensures ReplaceById(menus, updated) == menus
  {
  }

  /** Applying the same menu update twice is applying it once. */
  lemma ReplaceByIdIdempotent(menus: seq<MenuItem>, updated: MenuItem)
    ensures ReplaceById(ReplaceById(menus, updated), updated) == ReplaceById(menus, updated)
  {
  }

  /** Every occurrence of `v` removed, the others kept in order. */
  function RemoveAll(xs: seq<string>, v: string): (r: seq<string>)
    ensures v !in r
    ensures forall x :: x in r <==> x in xs && x != v
    ensures multiset(r) == multiset(xs)[v := 0]
  {
    if xs == [] then []
    else if xs[0] == v then (assert xs == [xs[0]] + xs[1..]; RemoveAll(xs[1..], v))
    else (assert xs == [xs[0]] + xs[1..]; [xs[0]] + RemoveAll(xs[1..], v))
  }

  /** Removal works piecewise: the order of what is kept is the order it had. */
  lemma {:induction false} RemoveAllAppend(a: seq<string>, b: seq<string>, v: string)
    ensures RemoveAll(a + b, v) == RemoveAll(a, v) + RemoveAll(b, v)
  {
    if a == [] {
      assert a + b == b;
    } else {
      assert (a + b)[1..] == a[1..] + b;
      RemoveAllAppend(a[1..], b, v);
    }
  }

  /** Removing a value that is not there changes nothing. */
  lemma {:induction false} RemoveAbsentIsIdentity(xs: seq<string>, v: string)
    requires v !in xs
    ensures RemoveAll(xs, v) == xs
  {
    if xs != [] {
      RemoveAbsentIsIdentity(xs[1..], v);
      assert xs == [xs[0]] + xs[1..];
    }
  }

  /** `setAppliedFilter`: a filter already applied is removed (every
      occurrence of it), any other is appended. */
  function SetAppliedFilter(s: State, value: string): (t: State)
    ensures value in t.appliedFilter <==> value !in s.appliedFilter
    ensures value in s.appliedFilter ==> t.appliedFilter == RemoveAll(s.appliedFilter, value)
    ensures value !in s.appliedFilter ==> t.appliedFilter == s.appliedFilter + [value]
    ensures t.(appliedFilter := s.appliedFilter) == s
  {
    s.(appliedFilter :=
         if value in s.appliedFilter then RemoveAll(s.appliedFilter, value)
         else s.appliedFilter + [value])
  }

  /** Toggling a filter that was not applied, and toggling it again, gives
      back the state it started from. */
  lemma {:induction false} ToggleTwiceRestores(s: State, value: string)
    requires value !in s.appliedFilter
    ensures SetAppliedFilter(SetAppliedFilter(s, value), value) == s
  {
    RemoveAllAppend(s.appliedFilter, [value], value);
    RemoveAbsentIsIdentity(s.appliedFilter, value);
    assert RemoveAll([value], value) == [];
  }

  /** `resetAppliedFilter`: no filter applied, nothing else changed. */
  function ResetAppliedFilter(s: State): (t: State)
    ensures t.appliedFilter == []
    ensures t.(appliedFilter := s.appliedFilter) == s
  {
    s.(appliedFilter := [])
  }

  /** After a reset, applying a filter leaves exactly that filter. */
  lemma ResetThenApply(s: State, value: string)
    ensures SetAppliedFilter(ResetAppliedFilter(s), value).appliedFilter == [value]
  {
  }
}
