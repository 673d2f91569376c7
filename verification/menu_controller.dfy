/** Menu creation and editing (backend/controllers/menuController.ts). The
    image host is a parameter: `upload` is `None` when the request has no file
    and `Some(url)` with the URL the host returned otherwise. */
module MenuController {
  import opened Common
  import opened Models
  import opened Db

  /** `addMenu`: refuse a request without an image; otherwise create the menu
      document, then append its id to the caller's restaurant. A caller with
      no restaurant gets 404, but the menu document has been created by then. */
  method AddMenu(db: Database, caller: Id, name: string, description: string, price: int, upload: Option<string>)
    returns (reply: Reply, created: Option<Id>)
    requires db.Valid()
    modifies db
    ensures db.Valid()
    ensures db.users == old(db.users) && db.orders == old(db.orders)
    ensures upload.None? ==>
              && reply == Reply(400, "Image is required") && created.None?
              && db.menus == old(db.menus) && db.restaurants == old(db.restaurants)
    ensures upload.Some? ==>
              && created == Some(old(db.nextId))
              && db.menus == old(db.menus)[created.value := Menu(name, description, price, upload.value)]
    ensures upload.Some? && !OwnsRestaurant(old(db.restaurants), caller) ==>
              reply == Reply(404, "Restaurant not found") && db.restaurants == old(db.restaurants)
    ensures upload.Some? && OwnsRestaurant(old(db.restaurants), caller) ==>
              reply == Reply(201, "Menu added successfully")
    ensures upload.Some? ==> forall rid :: rid in old(db.restaurants) && old(db.restaurants)[rid].user == caller ==>
              db.restaurants == old(db.restaurants)[rid :=
                old(db.restaurants)[rid].(menus := old(db.restaurants)[rid].menus + [created.value])]
  {
    if upload.None? {
      return Reply(400, "Image is required"), None;
    }
    var id := db.NewId();
    db.menus := db.menus[id := Menu(name, description, price, upload.value)];
    created := Some(id);
    // findOneAndUpdate({ user: caller }, { $push: { menus: id } })
    if exists rid :: rid in db.restaurants && db.restaurants[rid].user == caller {
      var rid :| rid in db.restaurants && db.restaurants[rid].user == caller;
      var restaurant := db.restaurants[rid];
      db.restaurants := db.restaurants[rid := restaurant.(menus := restaurant.menus + [id])];
      reply := Reply(201, "Menu added successfully");
    } else {
      reply := Reply(404, "Restaurant not found");
    }
  }

  /** The menu after an edit: name, description and price are overwritten
      only by a truthy value (a non-empty string, a non-zero price), the
      image only when a file was uploaded. */
  function Patch(m: Menu, name: string, description: string, price: int, upload: Option<string>): (p: Menu)
    ensures p.name == (if Truthy(name) then name else m.name)
    ensures p.description == (if Truthy(description) then description else m.description)
    ensures p.price == (if price != 0 then price else m.price)
    ensures p.image == (if upload.Some? then upload.value else m.image)
  {
    Menu(if name != "" then name else m.name,
         if description != "" then description else m.description,
         if price != 0 then price else m.price,
         if upload.Some? then upload.value else m.image)
  }

  /** An edit whose every field is falsy and without a file changes nothing. */
  lemma EmptyPatchIsIdentity(m: Menu)
    ensures Patch(m, "", "", 0, None) == m
  {
  }

  /** Applying the same edit twice is applying it once. */
  lemma PatchIdempotent(m: Menu, name: string, description: string, price: int, upload: Option<string>)
    ensures Patch(Patch(m, name, description, price, upload), name, description, price, upload)
            == Patch(m, name, description, price, upload)
  {
  }

  /** The outcome of an edit depends only on the menu id, not on who asks:
      `editMenu` takes no caller at all, so any authenticated user may edit
      any menu. */
  method EditMenu(db: Database, id: Id, name: string, description: string, price: int, upload: Option<string>)
    returns (reply: Reply)
    requires db.Valid()
    modifies db`menus
    ensures db.Valid()
    ensures id !in old(db.menus) ==> reply == Reply(404, "Menu not found!") && db.menus == old(db.menus)
    ensures id in old(db.menus) ==>
              && reply == Reply(200, "Menu updated")
              && db.menus == old(db.menus)[id := Patch(old(db.menus)[id], name, description, price, upload)]
  {
    if id !in db.menus {
      return Reply(404, "Menu not found!");
    }
    var menu := db.menus[id];
    if name != "" { menu := menu.(name := name); }
    if description != "" { menu := menu.(description := description); }
    if price != 0 { menu := menu.(price := price); }
    if upload.Some? { menu := menu.(image := upload.value); }
    db.menus := db.menus[id := menu];
    reply := Reply(200, "Menu updated");
  }
}
