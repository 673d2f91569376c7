# Food-delivery marketplace: a verified model of the backend core

This project models the state-changing core of a food-delivery marketplace in Dafny:
- the Express/Mongoose backend controllers for checkout and payment confirmation, restaurants, menus and user accounts;
- the authentication middleware in front of them;
- the verification-code generator;
- the synchronous updaters of the client's restaurant store.

The four document collections (users, restaurants, menus, orders) live in a `Db.Database` object. Each is a map from document id to record. A counter, `nextId`, stands for ObjectId generation. Every handler is a module-level method that takes the database as a parameter and may modify it. Its contract states the reply (status code and message) on each path it models, and the new contents of every collection it may change. It also preserves `Database.Valid()`:
- every id is below the counter;
- no two users share an email (the schema's unique index);
- no owner has two restaurants.

Foreign services are inputs to the model:
- the payment processor is a function from session request to reply;
- the webhook signature check is a verified event or a failure;
- the image host is the uploaded URL, or `None` when no file was sent;
- bcrypt is the new hash and a comparison function;
- `crypto.randomBytes` is the reset token;
- `jwt.verify` is a function from token to outcome;
- `Math.random` is a sequence of indices;
- the mailer is a success flag;
- `Date.now()` is a `now` parameter in milliseconds.

Prices are integer cents. The only arithmetic left is `price × quantity` summed over the cart.

Files:
- `common.dfy`: ids, `Option`, replies and JavaScript truthiness of strings.
- `models.dfy`: the document records, the user schema's creation defaults, the database invariant and the lemmas that keep it.
- `order_controller.dfy`: line items, checkout and the payment webhook.
- `restaurant_controller.dfy`: restaurant create/update, order listing and status, and search.
- `menu_controller.dfy`: menu add and edit.
- `user_controller.dfy`: signup, login, email verification, password reset and profile update.
- `verification_code.dfy`: the six-character code.
- `auth_middleware.dfy`: the gate that sets `req.id`.
- `restaurant_store.dfy`: the client store's pure updaters.

### Behaviour of the code worth knowing
- **Stored order total.** It is computed from the client-supplied cart prices. The amount charged comes from catalog prices. `OrderController.ClientPriceDecidesStoredTotal` shows a cart whose stored total differs from the charge. When every cart price equals its catalog price, the two agree (`TotalMatchesChargeWhenPricesAgree`).
- **Session without a URL.** The reply is 400 "Error while creating session", and no order is saved.
- **Failed token verification.** A verification error other than expiry (a bad signature, a malformed token) is a 500 "Internal server error". Only a missing token, a payload without a user id and an expired token get 401.
- **Menu edits.** `editMenu` checks no ownership: any authenticated caller can edit any menu.
- **Menu created for a caller with no restaurant.** `addMenu` creates the menu document before looking for the caller's restaurant. So a 404 leaves an orphan menu behind.

## Model

| member | source | states |
|---|---|---|
| Models.CreateUser | backend/models/userModel.ts:21-80 | for a numeric contact, creation fails exactly when fullname, email or password is empty; a created user has admin and isVerified false, the three "Update your …" placeholders, an empty profile picture, the given fields, lastLogin = now, no reset token |
| Models.AddUserKeepsEmailsUnique | backend/models/userModel.ts:27-31 | inserting a user whose email no one has keeps emails unique |
| Models.ReplaceUserKeepsEmailsUnique | backend/models/userModel.ts:27-31 | replacing a user by one whose email no other user has keeps emails unique |
| Models.AddRestaurantKeepsOnePerOwner | backend/controllers/restaurantController.ts:14-41 | inserting a restaurant for an owner without one keeps one restaurant per owner |
| Db.Database.NewId | backend/controllers/orderController.ts:60-67 | a new id is unused in every collection and the invariant is kept |
| OrderController.Populate | backend/controllers/orderController.ts:50-51 | populating menus keeps exactly the ids that name a menu, each with its document |
| OrderController.PopulateAppend | backend/controllers/orderController.ts:50-51 | populating works piecewise over the menus array, so the populated menus keep its order and repetitions |
| OrderController.MenuImages | backend/controllers/orderController.ts:82 | the image list is the menus' images in order |
| OrderController.FindMenu | backend/controllers/orderController.ts:143-145 | finds a menu exactly when some populated menu has the cart line's id, and returns that menu |
| OrderController.CreateLineItems | backend/controllers/orderController.ts:138-158 | fails exactly when some cart line is unknown; otherwise one line item per cart line in order, with name, image and unit amount from the catalog menu and quantity from the cart, currency usd |
| OrderController.CartTotal | backend/controllers/orderController.ts:57-58 | the reduced total Σ price × quantity over the client's cart is never negative for non-negative prices and quantities, and is 0 when every quantity is 0 |
| OrderController.CartTotalAppend | backend/controllers/orderController.ts:57-58 | the reduced total of a concatenation is the sum of the totals |
| OrderController.CartTotalCons | backend/controllers/orderController.ts:57-58 | the total of a cart is the first line's price × quantity plus the rest |
| OrderController.CreateLineItemsCons | backend/controllers/orderController.ts:142-157 | line items of a cart are the first line's item followed by the rest's items |
| OrderController.TotalMatchesChargeWhenPricesAgree | backend/controllers/orderController.ts:57-66 | when every cart price equals its catalog price, the stored total equals the amount charged |
| OrderController.ClientPriceDecidesStoredTotal | backend/controllers/orderController.ts:57-66 | a cart priced below the catalog is stored at the cart price (2000) while the charge is at the catalog price (2400) |
| OrderController.PendingOrder | backend/controllers/orderController.ts:60-67 | the new order is pending, owned by the caller, for the requested restaurant, with the request's cart and delivery details and total Σ price × quantity |
| OrderController.CreateCheckoutSession | backend/controllers/orderController.ts:47-96 | 404 for an unknown restaurant, 500 for an unknown cart line or processor failure, 400 for a session without URL, all with orders unchanged; otherwise 200 and exactly one new pending order, saved under the id sent to the processor |
| OrderController.Confirm | backend/controllers/orderController.ts:119-123 | a confirmed order has status confirmed, total replaced only by a non-zero amount, all else unchanged |
| OrderController.WebhookOrders | backend/controllers/orderController.ts:108-124 | only a verified completed-checkout event for an existing order changes anything, and then only that order, to its confirmation |
| OrderController.ConfirmIdempotent | backend/controllers/orderController.ts:119-123 | confirming twice is confirming once |
| OrderController.WebhookIdempotent | backend/controllers/orderController.ts:108-124 | delivering the same event twice leaves the orders as delivering it once |
| OrderController.StripeWebhook | backend/controllers/orderController.ts:98-136 | the new orders are the webhook's function of the old; 400 for a bad signature, 404 for an unknown order, 200 otherwise |
| RestaurantController.FindOwned | backend/controllers/restaurantController.ts:15 | finds a restaurant exactly when the caller owns one, and returns the caller's |
| RestaurantController.CreateRestaurant | backend/controllers/restaurantController.ts:8-51 | 400 "already exists" before 400 "Image is required", both with no change; otherwise exactly one new restaurant owned by the caller with the given fields, the uploaded image and no menus, 201 |
| RestaurantController.Overwrite | backend/controllers/restaurantController.ts:88-99 | an update overwrites name, city, country, delivery time and cuisines, the image only when a file is supplied; owner and menus are untouched |
| RestaurantController.UpdateRestaurant | backend/controllers/restaurantController.ts:74-112 | 404 and no change for a caller without a restaurant; otherwise only the caller's restaurant is overwritten, 200 |
| RestaurantController.GetRestaurantOrder | backend/controllers/restaurantController.ts:115-136 | 404 for a caller without a restaurant; otherwise exactly the orders of the caller's restaurant |
| RestaurantController.UpdateOrderStatus | backend/controllers/restaurantController.ts:139-165 | 404 and no change for an unknown order; otherwise that order's status becomes the given value, unchecked, and nothing else changes |
| RestaurantController.Split | backend/controllers/restaurantController.ts:172 | splitting on commas gives at least one piece, none containing a comma |
| RestaurantController.NonEmpty | backend/controllers/restaurantController.ts:172 | filtering keeps exactly the non-empty pieces, each with its multiplicity |
| RestaurantController.NonEmptyAppend | backend/controllers/restaurantController.ts:172 | filtering works piecewise over a concatenation, so the kept pieces keep their order |
| RestaurantController.SelectedCuisines | backend/controllers/restaurantController.ts:172 | selected cuisines are non-empty and comma-free |
| RestaurantController.JoinSplit | backend/controllers/restaurantController.ts:172 | joining the split pieces with commas gives back the string |
| RestaurantController.SplitCommaFree | backend/controllers/restaurantController.ts:172 | a comma-free string splits into itself |
| RestaurantController.SplitAtComma | backend/controllers/restaurantController.ts:172 | splitting at the first comma separates the first piece |
| RestaurantController.SplitJoin | backend/controllers/restaurantController.ts:172 | splitting comma-free pieces joined with commas gives back the pieces |
| RestaurantController.NonEmptyOfNonEmpty | backend/controllers/restaurantController.ts:172 | filtering non-empty pieces keeps them all |
| RestaurantController.CuisinesRoundTrip | backend/controllers/restaurantController.ts:172 | the server recovers exactly the cuisine list the client joined with commas (frontend/src/store/useRestaurantStore.ts:93) |
| RestaurantController.Lower | backend/controllers/restaurantController.ts:180-190 | case folding (the `i` option) turns each upper-case letter into its own lower-case letter and keeps every other character in place |
| RestaurantController.LowerIdempotent | backend/controllers/restaurantController.ts:180-190 | folding a folded string changes nothing |
| RestaurantController.LowerSlice | backend/controllers/restaurantController.ts:180-190 | folding commutes with taking a slice |
| RestaurantController.ContainsCI | backend/controllers/restaurantController.ts:180-190 | the case-insensitive match of a search text: an empty text matches every field, and a match needs a field at least as long as the text |
| RestaurantController.ContainsCIIgnoresCase | backend/controllers/restaurantController.ts:180-190 | the case-insensitive match gives the same answer after folding either the field or the search text |
| RestaurantController.BuildQuery | backend/controllers/restaurantController.ts:173-197 | the staged query matches a restaurant exactly when the reference search predicate holds; the searchQuery clause replaces the searchText clause; the cuisine filter is set exactly when cuisines are selected |
| RestaurantController.SearchRestaurant | backend/controllers/restaurantController.ts:168-209 | 200 with exactly the restaurants that satisfy the search predicate |
| RestaurantController.EmptySearchMatchesAll | backend/controllers/restaurantController.ts:170-197 | with all inputs empty every restaurant matches |
| RestaurantController.SearchQueryOverridesSearchText | backend/controllers/restaurantController.ts:178-192 | with a non-empty searchQuery the searchText has no effect, and the match is name-or-cuisine containment of the query |
| RestaurantController.CuisineFilterNarrows | backend/controllers/restaurantController.ts:195-197 | selecting cuisines only removes results, and every remaining result has a selected cuisine |
| MenuController.AddMenu | backend/controllers/menuController.ts:6-55 | 400 and no change without a file; otherwise the menu is created, and appended to the end of the caller's restaurant's menus (201) or left orphaned (404) |
| MenuController.Patch | backend/controllers/menuController.ts:69-78 | name, description and price are overwritten only by truthy values, the image only when a file is supplied |
| MenuController.EmptyPatchIsIdentity | backend/controllers/menuController.ts:69-78 | an edit with every field falsy and no file changes nothing |
| MenuController.PatchIdempotent | backend/controllers/menuController.ts:69-78 | repeating an edit changes nothing more |
| MenuController.EditMenu | backend/controllers/menuController.ts:57-90 | 404 and no change for an unknown id; otherwise only that menu is patched, with no ownership check, 200 |
| UserController.VerificationMatches | backend/controllers/userController.ts:122-125 | the verifyEmail lookup: a user without a code or expiry, or whose expiry is not after now, matches no code; a matching code is the user's only code |
| UserController.ResetMatches | backend/controllers/userController.ts:215-218 | the resetPassword lookup: a user without a token or expiry, or whose expiry is not after now, matches no token; a matching token is the user's only token |
| UserController.MarkVerified | backend/controllers/userController.ts:135-137 | verification sets isVerified and clears both verification fields, touching nothing else |
| UserController.IssueReset | backend/controllers/userController.ts:185-188 | the reset token is set with expiry now + 3,600,000 ms, touching nothing else |
| UserController.ApplyReset | backend/controllers/userController.ts:228-231 | the password becomes the new hash and both reset fields are cleared, touching nothing else |
| UserController.VerificationIsSingleUse | backend/controllers/userController.ts:122-137 | a used verification code matches at no later time |
| UserController.ResetIsSingleUse | backend/controllers/userController.ts:215-231 | a used reset token matches at no later time |
| UserController.IssuedResetAcceptedWithinTheHour | backend/controllers/userController.ts:185-188 | a freshly issued reset token is accepted exactly before now + 1 hour, and no other token is |
| UserController.FindByEmail | backend/controllers/userController.ts:21 | finds a user exactly when the email is taken, and returns that user |
| UserController.Signup | backend/controllers/userController.ts:16-66 | 400 and no change for a taken email; otherwise exactly one new user with the schema defaults, lastLogin = now, a six-character code from the random indices expiring at now + 86,400,000 ms; 201, or 500 after creation when the mail fails |
| UserController.Login | backend/controllers/userController.ts:69-113 | unknown email and wrong password give the same 400 and no change; success changes only lastLogin |
| UserController.VerifyEmail | backend/controllers/userController.ts:116-153 | fails with 400 and no change exactly when no user holds the code unexpired (expiry > now); otherwise that user is marked verified |
| UserController.ForgotPassword | backend/controllers/userController.ts:171-206 | 400 and no change for an unknown email; otherwise that user gets the token, valid for one hour |
| UserController.ResetPassword | backend/controllers/userController.ts:209-246 | fails with 400 and no change exactly when no user holds the token unexpired; otherwise that user gets the new hash and loses the token |
| UserController.UpdateProfile | backend/controllers/userController.ts:274-316 | 400 and no change without a profile picture; otherwise only the caller's name, email, address, city, country and picture (the uploaded URL) change; a duplicate email is a 500 with no change; a caller with no user record gets 200 "Profile updated successfully" and nothing changes |
| VerificationCode.GenerateVerificationCode | backend/utils/generateVerificationToken.ts:1-16 | the code has the requested length (default 6; 0 gives the empty string), its i-th character is the character set's entry at the i-th random index, and every character is from the 62-character set |
| AuthMiddleware.Authenticate | backend/middleware/isAuthenticated.ts:12-47 | a request passes exactly when its token verifies to a payload with a non-empty userId; no token is 401 "User not authenticated", a payload without userId 401 "Invalid token", expiry 401 "Token expired", any other verify error 500 "Internal server error" |
| AuthMiddleware.IsAuthenticated | backend/middleware/isAuthenticated.ts:12-47 | next is called exactly on the decision table's success, then with req.id set to the decoded userId; otherwise the reply is the table's and req is untouched |
| RestaurantStore.AddMenuToRestaurant | frontend/src/store/useRestaurantStore.ts:110-119 | the menu is appended at the end with the earlier menus unchanged; a null restaurant stays null; nothing else changes |
| RestaurantStore.ReplaceById | frontend/src/store/useRestaurantStore.ts:125-127 | length and order are kept; entries with the updated id are replaced and all others kept |
| RestaurantStore.UpdateMenuToRestaurant | frontend/src/store/useRestaurantStore.ts:122-137 | a null restaurant gives the state unchanged; otherwise only the held restaurant's menus are replaced by id |
| RestaurantStore.ReplaceAbsentIsIdentity | frontend/src/store/useRestaurantStore.ts:125-127 | updating a menu whose id is absent changes nothing |
| RestaurantStore.ReplaceByIdIdempotent | frontend/src/store/useRestaurantStore.ts:125-127 | repeating a menu update changes nothing more |
| RestaurantStore.RemoveAll | frontend/src/store/useRestaurantStore.ts:144 | removal drops every occurrence of the value and keeps every other element with its multiplicity |
| RestaurantStore.RemoveAllAppend | frontend/src/store/useRestaurantStore.ts:144 | removal works piecewise over a concatenation, so the kept elements keep their order |
| RestaurantStore.RemoveAbsentIsIdentity | frontend/src/store/useRestaurantStore.ts:144 | removing an absent value changes nothing |
| RestaurantStore.SetAppliedFilter | frontend/src/store/useRestaurantStore.ts:140-148 | the value is applied afterwards exactly when it was not before: present is removed everywhere, absent is appended; nothing else changes |
| RestaurantStore.ToggleTwiceRestores | frontend/src/store/useRestaurantStore.ts:140-148 | toggling an absent filter twice gives back the original state |
| RestaurantStore.ResetAppliedFilter | frontend/src/store/useRestaurantStore.ts:151-153 | the filter list becomes empty and nothing else changes |
| RestaurantStore.ResetThenApply | frontend/src/store/useRestaurantStore.ts:140-153 | after a reset, applying a filter leaves exactly that filter |
| RestaurantStore.InitialState | frontend/src/store/useRestaurantStore.ts:16-21 | from the initial state (no restaurant, no filter) the menu updaters and the reset change nothing, and the first filter applied is the only one |

## Left out

- Regular-expression semantics of `$regex`: the search text is matched as a literal, case-insensitive substring. Case folding covers ASCII letters only. Regex metacharacters in the input are not interpreted.
- Result order: search and order listings are returned as maps keyed by id, not in database order. Mongoose `populate` of user and restaurant on listed orders is not modelled.
- Failures of the database and the image host: the image host, every `save` and every restaurant or menu `create` are assumed to succeed. Two database rejections are modelled: the user schema's required fields in `Models.CreateUser`, which makes signup answer 500, and the unique email index in `UserController.UpdateProfile`, which answers 500. Connection and write failures are not modelled.
- Schema validation of restaurants and menus (required fields, number casts) is not modelled. The `JSON.parse` of the cuisines field is taken as already done; a malformed cuisines string (a 500) is not modelled.
- Models.CreateUser: the contact is an integer, so the cast failure of a non-numeric contact (`Number(contact)` is NaN, the schema rejects it and signup answers 500 with no user created) is not modelled.
- Request-body shape: updateProfile and the other handlers receive every field. Absent body fields, which Mongoose would skip in an update, are not modelled. A multipart price of "0" is a truthy string in `editMenu`; the model treats the price as a number, where only 0 is falsy.
- `Signup`'s required-password check is on the bcrypt hash, which is never empty, so an empty plain password is accepted, as in the code.
- The stored order total is `Σ price × quantity` in integer cents. The source's floating-point product and `Math.round(· × 100)` are not modelled.
- `Db.Database.NewId`: ObjectIds are modelled as a counter. Their time-and-random structure is not.
- Cookies and JWT signing (`generateToken`), `logout` and `checkAuth` are not modelled; the middleware takes the cookie's token as input.
- Email content and delivery: a failed send is a 500 after the database change, as in the code. The mail bodies are not modelled.
- Stripe session options (payment methods, shipping countries, success and cancel URLs) are not modelled. The session request carries the line items, the order id and the menu images.
- The webhook's inner 500 on a database error is not modelled. Neither is the text of the signature error after "Webhook error".
- `getOrders`, `getRestaurant` and `getSingleRestaurant` are read-only lookups and are not part of this model. `backend/models/orderModel.ts` is not part of this model; the order record follows the fields the checkout handler writes.
- Concurrency: handlers are modelled as atomic steps. The interleavings of the `find` and the `save` inside one handler are not modelled.
- The client store's network actions (create, fetch, update, search, single restaurant), its loading flag changes and its localStorage persistence are not modelled. The `restaurantOrder` field, which the store's type does not declare, is not modelled.
