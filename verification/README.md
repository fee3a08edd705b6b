# InvenTrack Pro in Dafny

InvenTrack Pro is a small inventory web application. Each user registers and logs in, then keeps a private list of products. A product has a name, description, category, price, rating and optional image. Users can search, filter, sort and page through the list.

This project models the application's core as pure Dafny functions over immutable values and proves what the core promises.

## What is modelled

**Product routes** (`routes.dfy`, module `Routes`). These are the five `/api/products` routes behind the `isAuthenticated` guard.
- Creating a product validates the body and stamps the product with the session's user.
- Listing returns the user's own rows, narrowed and sorted by the query.
- Read, patch and delete by id answer 404 for a missing row and 403 for another user's row. They do this before reading or changing anything.
- A patch validates its body first, so an invalid body is a 400 even for a missing id.

**Listing filter** (`product_query.dfy`, module `ProductQuery`). This is `applyProductFilters`: a search, category, price and rating stage, then an optional sort.
- The search is a case-insensitive substring test on the name and the description.
- The price range is split on `-` and its ends are read with `Number`.
- A rating has its first `+` removed and is read with `parseFloat`.
- Sorting uses one of five keys. Any other key compares everything as equal, which keeps the input order.
- The main contract: the listing holds exactly the input products that meet every active criterion, each as often as in the input.

**Accounts** (`auth.dfy`, `credentials.dfy`; modules `Auth` and `Credentials`). This covers register, login (the local strategy), logout, the current user, and the profile and password updates.
- The credential codec stores a password as `hex(key) "." hex(salt)` and checks a supplied password by deriving the key again.
- Proved: a password hashed and then compared is accepted.
- Proved: a fresh registration can log in at once.
- Proved: a password change makes the new password log in and rejects any password whose derived key differs from the new one.
- Proved: no user record in a response carries the digest.

**Validators** (`schema.dfy`, `auth_page.dfy`; modules `Schema` and `AuthPage`). These are the zod schemas of the shared schema file: product insert and update, profile update, password update with its refinement, and the listing query. Also modelled are the login and registration forms' client-side schemas.

**Persistence** (`storage.dfy`, module `Storage`).
- The two tables are maps keyed by serial id.
- The database constraints are checked as an invariant `Valid`: unique usernames, the owner foreign key, and its cascading delete.
- Every route and account handler preserves `Valid`.

**Pagination** (`pagination.dfy`, module `Pagination`). This is `DataTable`'s page slice, its row of page buttons with ellipses, and the previous and next controls.
- Proved: reading pages 1 to `totalPages` gives back every row in order.
- Proved: with more than five pages, the button row reads as pages 1 to `totalPages`, with ellipses exactly at the gaps.

**Filter bar** (`filter_bar.dfy`, module `FilterBar`). This is the state of `ProductFilterBar`: its initial values, single-control changes, and the reset. It also covers the query the products page builds from that state, which drops empty values.

**Navigation bar** (`top_nav.dfy`, module `TopNav`). This covers the avatar initials, the highlighted navigation entry and the theme toggle.

Supporting modules:
- `Wrappers`: `Option` and `Result`.
- `Text`: lower and upper case, `includes`, `split`, `replace` of the first occurrence.
- `Seqs`: `Array.prototype.filter`.
- `Sorting`: an insertion sort, proved stable, standing for `Array.prototype.sort`.
- `Json`: request bodies and query strings as JSON objects.
- `Numbers`: the results of `Number` and `parseFloat`, including `NaN` and the infinities.
- `Runtime`: the JavaScript built-ins the core calls, passed in as function values.
- `Http`: responses, the session, and the user record without its digest.

## Model

| member | source | states |
|---|---|---|
| `Text.ContainsIff` | routes.ts:27-29 | `includes` holds exactly when the term occurs at some index of the text |
| `Text.SplitJoin` | routes.ts:40 | joining the parts of `split(sep)` with `sep` gives back the string, so splitting loses nothing |
| `Text.SplitWithoutSeparator` | routes.ts:40 | a string without the separator splits into itself alone |
| `Text.SplitAtFirstSeparator` | auth.ts:32 | splitting `a + sep + t` with `sep` not in `a` gives `a` followed by the parts of `t` |
| `Text.RemoveFirst` | routes.ts:52 | `replace('+', '')` leaves a string without `+` unchanged and otherwise removes exactly one character |
| `Text.RemoveFirstAt` | routes.ts:52 | the removed character is the first occurrence, and the text on either side of it is kept |
| `Seqs.Filter` | routes.ts:27-53 | `filter` keeps exactly the members that pass the test, never adds any, keeps everything when all pass and nothing when none pass |
| `Seqs.FilterTwice` | routes.ts:22-54 | two filters in a row select what one filter by the conjunction of the tests selects, in the same order |
| `Sorting.Insert` | routes.ts:58-73 | inserting into a sorted run adds exactly the one element |
| `Sorting.Sort` | routes.ts:58-73 | the sort returns a permutation of its input |
| `Sorting.SortOrdered` | routes.ts:58-73 | with a sign-consistent comparator, neighbours in the sorted output are in comparator order |
| `Sorting.OrderedIsPairwise` | routes.ts:58-73 | with a transitive comparator, order between neighbours gives order between any two positions |
| `Sorting.SortNeutral` | routes.ts:70-71 | a comparator that finds every pair equal leaves the order unchanged |
| `Sorting.InsertKeepsOrder` | routes.ts:57-73 | inserting an element keeps the order of the elements a test accepts, when the element passes none the test accepts with it |
| `Sorting.SortStable` | routes.ts:57-73 | the sort is stable: for a sign-consistent, transitive comparator and any `x`, the elements rated equal to `x` come out in their input order |
| `Credentials.Hex` | auth.ts:22 | hexadecimal text has two digits per byte and only hexadecimal digits |
| `Credentials.HexRoundTrip` | auth.ts:41 | decoding the hexadecimal text of bytes gives back the bytes |
| `Credentials.HashPassword` | auth.ts:19-25 | a digest is 161 characters and splits at its one dot into the hex key derived from the salt text and the hex salt, both of which decode back |
| `Credentials.TimingSafeEqual` | auth.ts:44 | buffers of different lengths raise an error; otherwise the answer is byte equality |
| `Credentials.ComparePasswordsFailsClosed` | auth.ts:31-37 | a digest with no dot, an empty key part or an empty salt part rejects every password instead of raising |
| `Credentials.ComparePasswordsAccepts` | auth.ts:27-52 | an accepted password derives, from the stored salt, exactly the stored key |
| `Credentials.HashThenCompare` | auth.ts:19-52 | a digest made from a password accepts that password |
| `Credentials.OtherPasswordRejected` | auth.ts:27-52 | a password whose derived key differs is rejected by the digest |
| `Schema.MinLength` | schema.ts:49-51 | `.min(n)` reports nothing exactly when the string has at least `n` characters, otherwise one too_small issue on the field |
| `Schema.ParseInsertProduct` | schema.ts:31-38 | the insert body is accepted exactly when name, description and category are strings, price is a number, rating is absent or a number, and imageUrl is absent, null or a string; the parsed fields are the body's, and a rejection carries at least one issue |
| `Schema.ParseUpdateProduct` | schema.ts:40 | the partial body is accepted exactly when every present member has its column's type; each parsed field is present exactly when the body has it and then carries the body's value; an image URL is cleared exactly when the body sends `null` |
| `Schema.InsertBodyIsUpdateBody` | schema.ts:31-40 | every body the insert schema accepts, the update schema accepts too, with the same values |
| `Schema.EmptyUpdateBody` | schema.ts:40 | the empty body passes the update schema with no member set |
| `Schema.ParseProfileUpdate` | schema.ts:42-46 | a profile body is accepted exactly when its present members are strings and a present e-mail passes the e-mail check; each present member carries the body's string |
| `Schema.CheckString` | schema.ts:48-51 | a required string member keeps its value when it is a string and raises no issue exactly when it also meets the minimum length |
| `Schema.PasswordUpdateValidity` | schema.ts:48-55 | a password body is accepted exactly when the current password is non-empty, both new passwords have at least 6 characters, and they agree |
| `Schema.PasswordMismatchReported` | schema.ts:52-55 | when all three members are strings, disagreeing new passwords are reported on `confirmPassword` whatever else is wrong |
| `Schema.PasswordTypeErrorSkipsRefinement` | schema.ts:48-55 | a non-string new password is reported and the agreement refinement does not run |
| `Schema.ParseProductFilter` | schema.ts:57-63 | a query is accepted exactly when each of the five members is absent or a string |
| `Schema.FilterQueryRoundTrip` | schema.ts:57-63 | any filter sent as one string parameter per member parses back to itself |
| `Storage.GetUser` | storage.ts:42-45 | the lookup finds a user exactly when its id is stored |
| `Storage.GetUserByUsername` | storage.ts:47-50 | in a valid store a user is found exactly when the name is taken, and it is the stored row of that name |
| `Storage.CreateUser` | storage.ts:52-55 | a user is inserted with the next serial id exactly when the username is free; nothing else changes and the store stays valid |
| `Storage.UpdateUserProfile` | storage.ts:57-69 | the update succeeds exactly for a stored id with at least one member to set; present members replace, absent ones keep, and id, username and digest stay |
| `Storage.UpdateUserPassword` | storage.ts:71-80 | only the digest of that user changes |
| `Storage.GetProduct` | storage.ts:83-86 | the lookup finds a product exactly when its id is stored |
| `Storage.GetProductsByUserId` | storage.ts:88-91 | no id or id 0 gives no rows; otherwise exactly the stored rows of that owner |
| `Storage.CreateProduct` | storage.ts:93-96 | a product is inserted with the next serial id, the given fields and the default rating 0, exactly when the owner exists |
| `Storage.Merge` | storage.ts:98-103 | each member present in the update replaces the stored value, each absent one keeps it, and the id and owner never change |
| `Storage.UpdateProduct` | storage.ts:98-110 | the update succeeds exactly for a stored id with at least one member to set, and stores the merged row in place |
| `Storage.DeleteProduct` | storage.ts:112-114 | exactly that row is removed; every other row and every user is kept |
| `Storage.DeleteUser` | schema.ts:23 | deleting a user removes exactly that user's products with it, keeping the store valid |
| `Http.CurrentUser` | auth.ts:98-102 | the session's user is the stored row of the session's id, when that row exists |
| `Http.PublicUser` | auth.ts:119-121 | the user sent back has every column except the digest, each with the row's value, an absent name or e-mail as `null` |
| `ProductQuery.CompareIsConsistent` | routes.ts:58-72 | each of the five comparators, and the default one, is sign-consistent and transitive, so the sort order is well defined |
| `ProductQuery.ApplySort` | routes.ts:56-74 | the sort stage is a permutation of its input |
| `ProductQuery.ApplyProductFilters` | routes.ts:21-77 | the listing holds exactly the input products that meet every active criterion, each as often as the filtered input holds it |
| `ProductQuery.ListingIsSortedStages` | routes.ts:21-77 | the listing is the sort of the four filter stages run in order |
| `ProductQuery.UnknownKeyKeepsOrder` | routes.ts:56-74 | with no sort key, or one outside the five, the sort stage changes nothing |
| `ProductQuery.UnsortedKeepsOrder` | routes.ts:21-77 | without a recognised sort key, the listing is the matching products in input order |
| `ProductQuery.NoCriteriaKeepsEverything` | routes.ts:21-77 | a query with no active member lists the products exactly as given |
| `ProductQuery.SearchIsCaseInsensitiveSubstring` | routes.ts:24-31 | the search keeps a product exactly when the lower-cased term occurs in its lower-cased name or description |
| `ProductQuery.AllCategoriesRemoveNothing` | routes.ts:33-36 | an absent, empty or "all" category lists the same as no category |
| `ProductQuery.CategoryIsExact` | routes.ts:33-36 | a restricting category keeps exactly the matching products of that category |
| `ProductQuery.ClosedPriceRange` | routes.ts:38-48 | "a-b" keeps the prices from `Number(a)` to `Number(b)`, both ends included |
| `ProductQuery.OpenPriceRange` | routes.ts:45-46 | a range without '-' keeps prices of at least `Number(range)` |
| `ProductQuery.EmptyMinimumAppliesNoFilter` | routes.ts:40-47 | a range with an empty first part, such as "-50", filters nothing |
| `ProductQuery.UnparsableMinimumExcludesAll` | routes.ts:38-48 | a first part that `Number` reads as NaN empties the listing |
| `ProductQuery.RatingPlusIgnored` | routes.ts:52 | "4+" sets the same threshold as "4" |
| `ProductQuery.ListingOrdered` | routes.ts:56-74 | a listing sorted by any key is in comparator order at every pair of positions |
| `ProductQuery.KeyOrder` | routes.ts:58-72 | comparator order means ascending price, descending price, descending rating, or `localeCompare` order of names ascending or descending |
| `ProductQuery.SortOrders` | routes.ts:56-74 | each of the five keys orders the whole listing by its field in its direction |
| `Routes.Access` | routes.ts:128-135 | a missing row is 404, another user's row is 403, and only the owner passes |
| `Routes.Create` | routes.ts:84-105 | an invalid body is 400 with the issues; a valid body creates the product for the session's user (201) with the body's fields; otherwise nothing changes |
| `Routes.List` | routes.ts:107-121 | an invalid query is 400; otherwise 200 with exactly the user's stored rows that the filter selects, each as often as in the owner's rows; in comparator order for a sort key, with rows the key rates equal in stored order, and in stored order without a recognised one |
| `Routes.Read` | routes.ts:123-141 | the row is returned exactly to its owner; otherwise the 404 or 403 of the access check |
| `Routes.Patch` | routes.ts:143-167 | an invalid body is 400 before any lookup; then 404 or 403; an empty update is 500; only the owner's update with a member to set changes the row, to the merge of old row and body |
| `Routes.Delete` | routes.ts:169-189 | only the owner's delete removes the row, answering 204 with no body; otherwise 404 or 403 and nothing changes |
| `Routes.HandleProductRequest` | routes.ts:13-18 | a session naming a deleted user is a 500 and a request without a session a 401, neither changing anything; reads never change the store; the session is kept and the store stays valid |
| `Routes.ForeignProductUntouched` | routes.ts:123-189 | another user's product can be neither read, changed nor deleted: the store is kept and the answer is 403, or 400 for a bad patch body |
| `Routes.MissingProductIsNotFound` | routes.ts:123-189 | an id with no row is 404 and changes nothing, unless a patch body is invalid first |
| `Routes.OnlyOwnersWrite` | routes.ts:84-189 | a request that changes the store comes from a logged-in user and is a create or targets a row that user owns |
| `Routes.CreateThenRead` | routes.ts:84-141 | a created product reads back unchanged for its creator |
| `Routes.PatchThenRead` | routes.ts:123-167 | a patched product reads back as the patch response |
| `Routes.DeleteThenRead` | routes.ts:123-189 | a deleted product reads back as 404 |
| `ProductQuery.ListingKeepsTieOrder` | routes.ts:56-73 | for a sort key, the listed products the key rates equal to any product are the selected ones so rated, in input order |
| `Routes.ListingShowsOnlyOwnRows` | routes.ts:107-121 | every listed product is a stored row of the session's user |
| `Auth.Authenticate` | auth.ts:70-96 | in a valid store the strategy accepts exactly when the named user's digest matches the password, and returns that stored user |
| `Auth.Login` | auth.ts:131-135 | an empty username or password is 400; a rejection is 401 with the session kept; an acceptance logs the user in and returns it without the digest |
| `Auth.Register` | auth.ts:104-129 | a taken username is 400 and changes nothing; otherwise the user is stored with the digest of the password, logged in, and returned (201) without the digest |
| `Auth.Logout` | auth.ts:137-142 | logging out empties the session and answers 200 |
| `Auth.Me` | auth.ts:144-150 | the current user without the digest, or 401 when there is none |
| `Auth.Profile` | auth.ts:152-170 | 401 without a user; 400 for a body the schema rejects; 500 for an empty update; on success the store is exactly the profile update of that user with the body's members, id, username and digest are kept, and the updated user is returned |
| `Auth.ChangePassword` | auth.ts:172-199 | the update succeeds exactly for a logged-in user whose valid body names the current password; a wrong current password is a 400 "Current password is incorrect" changing nothing; a 404 is stated for a session user whose id is not a stored key, which a valid store never holds; on success only that user's digest is replaced by one of the new password |
| `Auth.HandleAuthRequest` | auth.ts:104-199 | a session naming a deleted user is a 500 for every account route, changing nothing; no account response carries a digest; the store stays valid; only register, profile and password requests change the store, and only register, login and logout change the session |
| `Auth.PasswordChangeNeverNotFound` | auth.ts:179-182 | in a valid store the "User not found" reply never occurs: the session's user is stored under its own id, so only a deletion between loading the session and the lookup could cause it |
| `Auth.LoginFailuresAlike` | auth.ts:77-87 | an unknown username and a wrong password get the same 401 reply |
| `Auth.FoundByName` | storage.ts:47-50 | a stored user is found again by its username |
| `Auth.RegisterThenLogin` | auth.ts:104-135 | a fresh registration logs in at once with its password as the new user |
| `Auth.RegisterTwiceFails` | auth.ts:106-109 | registering a taken username again is 400 and changes nothing |
| `Auth.ChangedDigestStored` | auth.ts:189-190 | after a password change, the user found by name carries the digest of the new password |
| `Auth.PasswordChangeThenLogin` | auth.ts:172-199 | after a password change the new password logs the user in |
| `Auth.PasswordChangeRejectsOthers` | auth.ts:172-199 | after a password change, a password whose derived key differs from the new one is rejected |
| `Auth.LogoutThenMe` | auth.ts:137-150 | after logout there is no current user |
| `Pagination.TotalPages` | components/ui/data-table.tsx:40 | the page count is the fewest pages of the given size that hold every row |
| `Pagination.Slice` | components/ui/data-table.tsx:43 | `slice` takes the rows between the bounds, and nothing from a start at or past the end |
| `Pagination.CurrentData` | components/ui/data-table.tsx:41-43 | a page holds at most `itemsPerPage` consecutive rows from its first index, and none past the end |
| `Pagination.FirstPagesArePrefix` | components/ui/data-table.tsx:40-43 | pages 1 to k read in order are the first k pages' worth of rows |
| `Pagination.PagesCoverData` | components/ui/data-table.tsx:40-43 | pages 1 to the page count read in order give back every row, in order, once |
| `Pagination.RowOnItsPage` | components/ui/data-table.tsx:40-43 | row i is on page i / itemsPerPage + 1, which exists, at offset i % itemsPerPage |
| `Pagination.PageRange` | components/ui/data-table.tsx:67-69 | the middle buttons are the pages from start to end, one each |
| `Pagination.FewPagesAllListed` | components/ui/data-table.tsx:50-53 | with at most five pages every page has its button, in order |
| `Pagination.ManyPagesRead` | components/ui/data-table.tsx:54-78 | with more than five pages the row starts at 1, ends at the last page, steps by one between buttons, and has an ellipsis exactly at each gap |
| `Pagination.ManyPagesBounded` | components/ui/data-table.tsx:54-78 | with more than five pages at most seven entries are shown, including the current page when it exists |
| `Pagination.PageButtonsIncrease` | components/ui/data-table.tsx:46-81 | button numbers strictly increase from left to right |
| `Pagination.Prev` | components/ui/data-table.tsx:147-148 | the previous control goes one back, never below page 1 |
| `Pagination.Next` | components/ui/data-table.tsx:174-175 | the next control goes one on, never beyond the last page |
| `Pagination.PrevNextInverse` | components/ui/data-table.tsx:147-175 | next undoes previous away from page 1, and previous undoes next before the last page |
| `Pagination.RenderAsWritten` | components/ui/data-table.tsx:83-181 | no data shows the empty message; otherwise the page's rows, with controls exactly when there is more than one page; the controls count all rows, name the first and last row of the page, carry that page's buttons and disable the arrows on the first and last page; for a page in range, "Showing a to b" names exactly the rows shown |
| `Pagination.StalePageShowsNothing` | components/ui/data-table.tsx:37-43 | five rows viewed on a left-over page 2 show no rows and no controls |
| `Pagination.ShownPage` | components/ui/data-table.tsx:37-43 | the page shown never exceeds the page count, is the page state whenever that is in range, and is the last existing page when the state is past it |
| `Pagination.Render` | components/ui/data-table.tsx:83-181 | as the table renders, except that non-empty data always shows between one and `itemsPerPage` rows; equal to the table as written whenever the page is in range, and to the table as written on the last page when the page state is past it |
| `FilterBar.OrElse` | components/product/product-filter.tsx:22-26 | the JavaScript `or` of an optional value and a fallback is the value when truthy and the fallback otherwise |
| `FilterBar.Initial` | components/product/product-filter.tsx:21-27 | each control starts at the truthy initial value, else at its default |
| `FilterBar.HandleFilterChange` | components/product/product-filter.tsx:29-34 | the named control takes the value and every other control keeps its own |
| `FilterBar.ResetFilters` | components/product/product-filter.tsx:36-44 | the reset restores the state shown with no initial filter |
| `FilterBar.ResetForgets` | components/product/product-filter.tsx:36-44 | the reset ignores the state it starts from, so resetting twice is resetting once |
| `FilterBar.ChangesCommute` | components/product/product-filter.tsx:29-34 | changes of two different controls commute |
| `FilterBar.ChangeToSameValue` | components/product/product-filter.tsx:29-34 | setting a control to its own value changes nothing |
| `FilterBar.Member` | pages/products-page.tsx:43-45 | a value is sent exactly when it is non-empty |
| `FilterBar.Sent` | pages/products-page.tsx:43-45 | each control is sent as a parameter exactly when it is not empty, with its value |
| `FilterBar.SentThenInitial` | components/product/product-filter.tsx:21-27 | a bar opened with the filter it sent shows the same state, when the four menus are set |
| `FilterBar.EquivalentFiltersListAlike` | routes.ts:21-77 | the listing depends only on the truthy members of the query |
| `FilterBar.DroppingEmptyMembersIsHarmless` | pages/products-page.tsx:43-45 | dropping empty values from the query does not change what the server lists |
| `FilterBar.DefaultsListAllByName` | components/product/product-filter.tsx:21-27 | the default bar lists every product, ordered by name |
| `FilterBar.SortOptionsRecognised` | components/product/product-filter.tsx:138-142 | every sort the menu offers is one of the listing's five keys |
| `FilterBar.FiveHundredPlusListsNothing` | components/product/product-filter.tsx:104 | the "$500+" option lists nothing, however the other controls are set |
| `ProductQuery.FiveHundredPlusAsWritten` | routes.ts:38-48 | as written, no price is in the range "500+" when `Number("500+")` is NaN |
| `ProductQuery.DropTrailingPlus` | routes.ts:52 | a trailing '+' is removed and nothing else; a range without one is kept |
| `ProductQuery.FiveHundredPlusIntended` | routes.ts:45-46 | with the '+' dropped, "500+" keeps exactly the prices of at least 500 |
| `ProductQuery.IntendedAgreesWithoutPlus` | routes.ts:38-48 | the corrected price test agrees with the written one on every range not ending in '+' |
| `AuthPage.ValidateLogin` | pages/auth-page.tsx:29-32 | the login form is accepted exactly when both fields are non-empty, with an issue on each empty one |
| `AuthPage.ValidateRegister` | pages/auth-page.tsx:35-42 | the registration form is accepted exactly when the username has at least 3 characters, both passwords at least 6, and they agree; a disagreement is reported on `confirmPassword` |
| `AuthPage.RegisterPayload` | pages/auth-page.tsx:74-77 | the form sends its username and password and drops the confirmation |
| `AuthPage.AuthPageView` | pages/auth-page.tsx:80-82 | a logged-in visitor is redirected to `/products`, and only such a visitor |
| `AuthPage.RegisteredCredentialsPassLogin` | pages/auth-page.tsx:29-42 | whatever the registration form accepts, the login form accepts |
| `AuthPage.AcceptedRegistrationCanLogIn` | pages/auth-page.tsx:74-77 | a registration the form accepts for a free username is stored, and then logs in |
| `TopNav.Head` | layout/TopNavBar.tsx:38 | `charAt(0)` is the first character, or empty for an empty part |
| `TopNav.Take` | layout/TopNavBar.tsx:41 | `slice(0, n)` is the prefix of length n, or the whole string when shorter |
| `TopNav.GetInitials` | layout/TopNavBar.tsx:35-42 | initials have at most two characters |
| `TopNav.FirstCharsAreWordStarts` | layout/TopNavBar.tsx:36-39 | the first characters of the space-separated parts are exactly the characters that begin a word |
| `TopNav.InitialsAreWordStarts` | layout/TopNavBar.tsx:35-42 | the initials are the first two word starts, upper-cased |
| `TopNav.TwoWordInitials` | layout/TopNavBar.tsx:35-42 | a two-word name gives the upper-cased first letters of both words |
| `TopNav.AvatarFallback` | layout/TopNavBar.tsx:144-146 | the avatar shows the username's initials, or "U" without a username |
| `TopNav.BlankUsernameHasNoInitials` | layout/TopNavBar.tsx:144-146 | a username of spaces only shows no initials at all |
| `TopNav.SpacesHaveNoWordStarts` | layout/TopNavBar.tsx:36-39 | a string of spaces has no word starts |
| `TopNav.Highlights` | layout/TopNavBar.tsx:73-74 | each entry is highlighted exactly when the location is its link |
| `TopNav.AtMostOneHighlighted` | layout/TopNavBar.tsx:48-74 | at most one entry is highlighted |
| `TopNav.OwnEntryHighlighted` | layout/TopNavBar.tsx:48-74 | at an entry's own link that entry is highlighted |
| `TopNav.ToggleTheme` | layout/TopNavBar.tsx:103-105 | the toggle always gives a theme, and never the one it was on |
| `TopNav.ToggleTwice` | layout/TopNavBar.tsx:103-105 | toggling twice returns to the starting theme |

## Left out

**Parameters instead of built-ins.** These become parameters:
- JavaScript built-ins: `localeCompare`, `Number`, `parseFloat`, and zod's e-mail check, bundled as `Runtime.Builtins`.
- The key derivation `scrypt`.
- The 16 random salt bytes.

The model assumes `localeCompare` is sign-consistent in both directions (a positive result swaps to a negative one and a negative to a positive one) and transitive. Nothing else is assumed about the built-ins.

**Numbers and text.**
- Prices and ratings are exact reals, not doubles. Rounding is not modelled.
- String lengths count characters, not UTF-16 code units.
- Case mapping covers ASCII letters only.

**Storage.**
- Row order: `getProductsByUserId` has no ORDER BY. The model returns the rows by ascending id.
- Storage is a map-based value. Driver, connection and session-store failures are not modelled. A 500 appears only where the model's own store refuses an operation or the session names a deleted user.
- Http.CurrentUser: a session naming a deleted user gives no current user. Passport's 500 for such a session is stated by the two dispatchers, `Routes.HandleProductRequest` and `Auth.HandleAuthRequest`, not by the individual routes.
- The session is just the logged-in user's id. These are not modelled: cookies, the session store, passport's session regeneration, and the `trust proxy` setting.

**Routes.**
- Path ids are integers. `parseInt` of the path segment is not modelled, and neither is the NaN id a non-numeric segment gives.
- Storage.GetProduct: ids are unbounded integers. The id columns are 32-bit `serial`, and the database rejects an id outside -2^31..2^31-1 with an error that the routes pass to `next`. So the source answers 500 for such an id, while the model finds no row and answers 404.
- Routes.MissingProductIsNotFound: its 404 holds in the source only for ids within the 32-bit range, for the reason on the `Storage.GetProduct` line.
- Auth.Login: the credentials are modelled as the body's `username` and `password` strings only. Passport's local strategy also reads them from the query string when the body member is missing or empty. It also passes on a truthy non-string body member, such as a number. Neither case is modelled, so the 400 for an empty member holds only without query-string credentials.
- A register body is taken to have string members. Bodies with other types, or with extra members, are not modelled. The route does no server-side validation of this body.
- Passport's own reply to a failed login is modelled by its status only, 401 with the text "Unauthorized".
- The 500 reply body is modelled as the default handler's text; its HTML wrapping is not.
- The console logging in the account code is not modelled.

**Client.**
- The filter bar's 300 ms debounce is not modelled; the bar's state is what eventually reaches the products page.
- `itemsPerPage` must be positive. The component's default is 5, and division by zero is not modelled.

**Layout.** The theme hook, icons, layout, the avatar image URL and the mobile menu are not modelled.

## Findings

| source | as written | input that shows it | evidently intended | confidence | as-written member | corrected member |
|---|---|---|---|---|---|---|
| components/ui/data-table.tsx:37-43 | the page state is never brought back into range when the data shrinks, and the controls are hidden once only one page is left | six products, page 2 open, the sixth deleted: five rows on page 2 show no rows and no page controls, with no way back to page 1 short of remounting the table | show the last existing page | not executed; medium | `Pagination.StalePageShowsNothing` | `Pagination.Render` |
| routes.ts:38-48 | the price range is split on '-' and the first part read with `Number`; "500+" is a single part that `Number` reads as NaN, so no product passes | the "$500+" option (components/product/product-filter.tsx:104) with any products | prices of at least 500: the menu label says so, the lower-bound-only branch (routes.ts:45-46) exists for a range with no upper part, and the rating filter drops its '+' the same way (routes.ts:52) | not executed; high | `ProductQuery.FiveHundredPlusAsWritten` | `ProductQuery.FiveHundredPlusIntended` |
