# racoinV2 controllers in Dafny

This project models the three controllers of the racoinV2 classified-ads site
(`AddItemController`, `ItemController`, `IndexController`) over an in-memory store
and proves what they promise.

- **Email.dfy** — `isEmail`, the PCRE recognizer for e-mail addresses. `IsEmail` is the
  recognizer as a computation: cut at the first `@`, then split the domain at dots.
  `MatchesPattern` is the pattern written as concatenations. `IsEmailMatchesPattern`
  proves the two equal. The top-level-domain alternation is stored as two parts:
  - a table of second letters per initial for the 244 two-letter names;
  - a disjunction for the 15 longer names.

  Together they hold exactly the 259 names of the pattern. Without the `D` modifier,
  PCRE's `$` also matches before a final newline, so a match followed by one `"\n"`
  is accepted too.
- **Listings.dfy** — the rows (`Annonce`, `Annonceur`, `Photo`, `Departement`,
  `Categorie`), the whole database as a value `Db`, and the class `Store`.
  - `Store` holds one field per table plus the auto-increment counters. Its methods
    stand for the ORM calls the controllers make (`create`, `save`, `delete`,
    `where(...)->delete()`).
  - `WellFormed` is the store invariant: every key is its row's id and lies below the
    counter, every attached listing names an existing advertiser, and every photo
    names an allocated listing id.
  - `Newest` is `ORDER BY id_annonce DESC LIMIT n`.
- **AddItem.dfy** — `validateFormData` and the create flow `addNewItem`: advertiser,
  then listing with a hashed password, then the association.
  - `failing` names the step at which storage throws.
  - `Submit` is the flow on `Db` values. `AddNewItem` is proved to follow it.
- **Item.dfy** — the listing pages.
  - The GET handlers answer "404" when `Annonce::find` finds nothing.
  - `supprimerItemPost` deletes the photos and then the listing, and only with a
    verifying password. `DeletePost` is its effect on `Db`.
  - `modifyPost` is modelled as intended (see Findings).
  - Also here: `buildMenu` and the lookups.
- **Index.dfy** — the home feed `getAllAnnonces`: the twelve newest listings, each with
  its photo count, first photo URL or placeholder, and advertiser name. Also the
  one-entry breadcrumb.
- **Lifecycle.dfy** — posting a listing and then deleting it with its own password
  restores the listings and photos tables.

The library calls are function-typed parameters: `password_hash` (`hash`),
`password_verify` (`verify`), `filter_var(..., FILTER_SANITIZE_STRING)` (`sanitize`)
and `filter_var(..., FILTER_VALIDATE_EMAIL)` (`validEmail`). What a property needs
of them (`verify(p, hash(p))`, `hash(p) != p`) is a `requires` of that lemma.

## Model

| member | source | states |
|---|---|---|
| Email.IsEmailMatchesPattern | src/controller/AddItemController.php:37-40 | the recognizer accepts exactly the subjects that the anchored pattern (either alternative) matches, whole or with one final newline |
| Email.BodyMatchesPattern | src/controller/AddItemController.php:39 | cutting at the first `@` and testing both domain alternatives accepts exactly the strings of the form local-part `@` domain |
| Email.DomainNameMatches | src/controller/AddItemController.php:39 | splitting a domain at dots into labels plus a listed TLD is exactly the pattern `(label\.)+tld` |
| Email.Ipv4Matches | src/controller/AddItemController.php:39 | exactly four dot-separated octets is exactly the pattern `(octet\.){3}octet` |
| Email.OctetValue | src/controller/AddItemController.php:39 | an octet of the pattern is exactly one to three digits (leading zeros allowed) whose value is at most 255 |
| Email.TldLetters | src/controller/AddItemController.php:39 | every listed top-level domain, in any letter case, is made of ASCII letters only |
| Email.EmailShape | src/controller/AddItemController.php:39 | an accepted subject holds exactly one `@`, what precedes it is non-empty and drawn from ASCII letters, digits, `-`, `_`, `.`, and it holds no space |
| Email.RejectsWithoutAt | src/controller/AddItemController.php:39 | a subject without `@` is rejected |
| Email.RejectsWithSpace | src/controller/AddItemController.php:39 | a subject holding a space is rejected |
| Email.AcceptsDomainBody | src/controller/AddItemController.php:39 | any local part, `@`, dot-terminated labels and a listed TLD make an accepted body |
| Email.AcceptsIpv4Body | src/controller/AddItemController.php:39 | any local part, `@` and four dotted octets make an accepted body |
| Email.AcceptsBodyWithNewline | src/controller/AddItemController.php:39 | an accepted body followed by one newline is accepted (`$` without `D`) |
| Email.AcceptsPlainAddress | tests/addItemTest.php:15-19 | `julie.waltispurger@example.com` is accepted |
| Email.RejectsInvalidEmail | tests/addItemTest.php:21-25 | `invalid email` is rejected |
| Email.RejectsInvalidemail | src/controller/AddItemController.php:39 | `invalidemail` (no `@`) is rejected |
| Email.AcceptsUpperCaseTld | src/controller/AddItemController.php:39 | the TLD is compared case-insensitively: `julie@example.COM` is accepted |
| Email.AcceptsSubdomainAddress | src/controller/AddItemController.php:39 | several labels are accepted: `user@sub.example.co` |
| Email.AcceptsIpv4Address | src/controller/AddItemController.php:39 | the address alternative accepts `admin@192.168.0.1` |
| Email.AcceptsTrailingNewline | src/controller/AddItemController.php:39 | `julie@example.com` followed by `"\n"` is accepted |
| PhpStrings.Trim | src/controller/AddItemController.php:82-83 | `trim` removes exactly the maximal leading and trailing runs of PHP's trimmed characters, keeping the middle as it is |
| PhpStrings.TrimIdempotent | src/controller/AddItemController.php:82-83 | trimming twice is trimming once |
| PhpStrings.IntToString | src/controller/ItemController.php:168-169 | the decimal text of an id is digits (after a `-` for a negative id) whose value is the id, with no leading zero, as PHP writes an int |
| AddItem.ValidateFormData | src/controller/AddItemController.php:78-96 | error keys are among `nameAdvertiser`, `emailAdvertiser`; the name key is present iff the sanitized trimmed name is PHP-empty (`""` or `"0"`); the email key iff the trimmed address does not validate; each with its message |
| AddItem.EmptyNameRefused | tests/addItemTest.php:39-57 | a form with an empty name gets a non-empty error map |
| AddItem.InvalidEmailRefused | tests/addItemTest.php:59-77 | a form whose address `invalidemail` does not validate gets a non-empty `emailAdvertiser` message |
| AddItem.CreateAnnonceur | src/controller/AddItemController.php:104-111 | inserts one advertiser row with the form's email, name and phone under the next id, and nothing else |
| AddItem.CreateAnnonce | src/controller/AddItemController.php:119-131 | inserts one listing row mapping city, department, price, title, description and category, with `hash(psw)` and today's date, and nothing else |
| AddItem.AssociateAnnonceToAnnonceur | src/controller/AddItemController.php:140-143 | sets the listing's advertiser id and changes nothing else |
| AddItem.AddNewItem | src/controller/AddItemController.php:51-70 | the tables and the page after a submission are those `Submit` gives: error page, or advertiser then listing then association up to the failing step |
| AddItem.RefusedFormWritesNothing | src/controller/AddItemController.php:55-58 | with validation errors no advertiser and no listing is written, and the error page shows those errors |
| AddItem.ConfirmedIffAllStepsRan | src/controller/AddItemController.php:57-68 | the confirmation page is shown iff there are no errors and no step threw |
| AddItem.SuccessfulSubmission | src/controller/AddItemController.php:104-131 | a successful submission adds exactly one advertiser and one listing under fresh ids, with the form's fields, the hashed password, today's date and the new advertiser's id, and keeps every earlier row and every photo |
| AddItem.StoredPasswordVerifies | src/controller/AddItemController.php:125 | the stored password verifies against the submitted one |
| AddItem.StoredPasswordNotPlain | src/controller/AddItemController.php:125 | the stored password is never the submitted one itself |
| AddItem.FailedListingLeavesAdvertiser | src/controller/AddItemController.php:60-68 | when creating the listing throws, the new advertiser stays, no listing refers to it and the listings table is unchanged |
| AddItem.FailedAssociationLeavesUnattached | src/controller/AddItemController.php:60-68 | when the association throws, both rows exist and the listing has no advertiser |
| AddItem.SubmitKeepsWellFormed | src/controller/AddItemController.php:60-65 | every submission, whatever page it ends on, keeps the store invariant |
| Listings.PhotosOf | src/controller/ItemController.php:200-202 | the photos of a listing are exactly the stored photos carrying its id |
| Listings.RemovePhotosOf | src/controller/ItemController.php:210-212 | deleting a listing's photos keeps exactly the photos carrying another id |
| Listings.CountIsPhotosOf | src/controller/IndexController.php:53 | the photo count of a listing is the number of its photos |
| Listings.PhotosPartition | src/controller/ItemController.php:210-212 | the deleted photos and the kept ones together are the original photos (as a multiset) |
| Listings.RemoveKeepsOthers | src/controller/ItemController.php:210-212 | deleting one listing's photos leaves every other listing's photos, in order |
| Listings.RemoveAbsent | src/controller/ItemController.php:210-212 | deleting the photos of a listing that has none changes nothing |
| Listings.PhotosOfConcat | src/controller/ItemController.php:200-202 | selecting a listing's photos keeps table order: it distributes over concatenation of the table |
| Listings.RemovePhotosOfConcat | src/controller/ItemController.php:210-212 | deleting a listing's photos keeps the remaining rows in table order |
| Listings.FirstPhotoIsFirstInTable | src/controller/IndexController.php:55-57 | the earliest table row carrying a listing's id is the first of its photos, so "first" means first in table order |
| Listings.FirstPhotoUrl | src/controller/IndexController.php:55-57 | the URL is that of the first photo of the listing, in table order |
| Listings.NewestLength | src/controller/IndexController.php:50 | the query returns `min(limit, number of listings)` rows |
| Listings.NewestFromTable | src/controller/IndexController.php:50 | every returned row is the stored listing under its own id |
| Listings.NewestDescending | src/controller/IndexController.php:50 | the rows come in strictly decreasing id order |
| Listings.NewestComplete | src/controller/IndexController.php:50 | no listing newer than a returned row is left out before it |
| Listings.NewestIsNewestFirst | src/controller/IndexController.php:50 | the query's rows satisfy the whole description of `ORDER BY id_annonce DESC LIMIT n` |
| Listings.NewestFirstUnique | src/controller/IndexController.php:50 | that description fixes the rows uniquely |
| Listings.Store.FindAnnonce | src/controller/ItemController.php:32 | `Annonce::find(n)` is the row under `n`, or null when there is none |
| Listings.Store.InsertAnnonceur | src/controller/AddItemController.php:106-110 | `Annonceur::create` adds the row under the next id and advances the counter, nothing else |
| Listings.Store.InsertAnnonce | src/controller/AddItemController.php:121-130 | `Annonce::create` adds an unattached row under the next id and advances the counter, nothing else |
| Listings.Store.SaveAnnonceFor | src/controller/AddItemController.php:142 | `annonce()->save` sets the listing's advertiser id, nothing else |
| Listings.Store.DeletePhotosOf | src/controller/ItemController.php:211 | removes exactly the photos of the listing, nothing else |
| Listings.Store.DeleteAnnonce | src/controller/ItemController.php:89 | removes the listing row, nothing else |
| Item.BuildMenu | src/controller/ItemController.php:165-171 | three entries: home `chemin` with text `Acceuil`, the category entry (text present iff a category has id `n`, then its name) and the listing entry with its title; the hrefs are `chemin`, `chemin/cat/n` and `chemin/itemController/n` with `n` in decimal |
| Item.MenuLinks | src/controller/ItemController.php:165-171 | the three hrefs differ from one another, and the listing href determines `n` |
| Item.LoadDepartementName | src/controller/ItemController.php:189-192 | the department's name when it exists, otherwise null |
| Item.LoadAnnonceur | src/controller/ItemController.php:179-181 | the advertiser under the listing's advertiser id, or null |
| Item.LoadCategorieName | src/controller/ItemController.php:151 | the category's name when it exists, otherwise null |
| Item.ValidateFormData | src/controller/ItemController.php:232-236 | the item controller's own validation never reports an error |
| Item.WrongPasswordKeepsStore | src/controller/ItemController.php:84-90 | a password that does not verify leaves every table unchanged and reports `pass = false` |
| Item.MissingListingKeepsStore | src/controller/ItemController.php:84-86 | a delete request for a missing listing writes nothing |
| Item.VerifiedDeleteRemovesListing | src/controller/ItemController.php:86-90 | a verified delete reports `pass = true`, removes the listing and all its photos, and keeps every other listing, every other listing's photos and every advertiser |
| Item.DeletePostKeepsWellFormed | src/controller/ItemController.php:83-99 | a delete request, verified or not, keeps the store invariant |
| Item.ModifyPostAsWrittenNeverRenders | src/controller/ItemController.php:134-153 | as written, the modify page is never rendered: a verified password ends in a type error (array for `int $id`), a missing or unattached listing in a type error (null for `int $id`), and any other request in an undefined-method error; derived from the declared parameter types and the class's method list |
| Item.ItemController.AfficherItem | src/controller/ItemController.php:31-49 | "404" iff the listing is missing; otherwise the menu, listing, advertiser, department name and photos; the field holds the lookup; the store is unchanged |
| Item.ItemController.SupprimerItemGet | src/controller/ItemController.php:60-71 | "404" iff the listing is missing, otherwise the listing; the store is unchanged |
| Item.ItemController.DeletePhotos | src/controller/ItemController.php:210-212 | removes exactly the listing's photos |
| Item.ItemController.SupprimerItemPost | src/controller/ItemController.php:83-99 | the tables and page after the request are those `DeletePost` gives: delete photos then listing only with a verifying password |
| Item.ItemController.ModifyGet | src/controller/ItemController.php:110-121 | "404" iff the listing is missing, otherwise the listing; the store is unchanged |
| Item.ItemController.ModifyPost | src/controller/ItemController.php:134-153 | the store is never written; `pass` is the password check's result; the view carries the advertiser, department and category lookups |
| Index.Breadcrumb | src/controller/IndexController.php:25-30 | a single entry linking `chemin` with text `Accueil` |
| Index.AdvertiserName | src/controller/IndexController.php:61-63 | the name of the advertiser whose id the listing carries, or null |
| Index.IndexController.GetAllAnnonces | src/controller/IndexController.php:48-67 | the field is replaced by one entry per query row, in query order, each built from that row |
| Index.IndexController.DisplayAllAnnonce | src/controller/IndexController.php:22-39 | the page shows the one-entry breadcrumb and the freshly built feed |
| Index.FeedSizeBound | src/controller/IndexController.php:50 | the feed has `min(12, number of listings)` entries, so at most 12 |
| Index.FeedIsNewestFirst | src/controller/IndexController.php:50-65 | the feed's listings are exactly the newest ones, newest first |
| Index.FeedDescending | src/controller/IndexController.php:50 | entries come in strictly decreasing listing id order |
| Index.EntryFields | src/controller/IndexController.php:53-63 | photo count = number of the listing's photos; URL is the placeholder iff the count is 0, else the first photo's URL; the name is that of the listing's advertiser, null when none matches |
| Index.FeedNamesAttached | src/controller/IndexController.php:61-63 | in a well-formed store every attached listing shows its advertiser's name |
| Lifecycle.CreateThenDelete | src/controller/ItemController.php:86-89 | posting a listing and deleting it with its own password gives back the listings and photos tables; the new advertiser stays |

## Left out

- Rendering and output: Twig templates, `echo`, `header`, `exit` and `error_log` are
  left out. Each handler's result stands for the page it renders, carrying the values
  handed to the template.
- ORM mechanics: Eloquent queries are the `Store` methods and the functions on `Db`.
  Ids come from counters, as auto-increment keys do. The feed's `->first()` has no
  `ORDER BY`; it is modelled as the first match in table order.
- `password_hash`, `password_verify` and `filter_var` are parameters; their behaviour
  is PHP's and is not modelled. A `FILTER_SANITIZE_STRING` result of `false` is not
  modelled: `sanitize` returns a string.
- `date_default_timezone_set` and `date('Y-m-d')` are left out; the date is the
  `today` parameter. `$_POST["pass"]` is the `pass` parameter.
- Exceptions: the exception raised by storage in `addNewItem` is the `failing`
  parameter. Nothing is rolled back, as in the source.
- DeletePost: every other storage call is taken to succeed. In `supprimerItemPost`
  (ItemController.php:88-89) the photos are deleted and then the listing, with no
  `try`/`catch`; if the listing's `delete()` failed, its photos would already be gone
  and the exception would escape. `DeletePost` and `SupprimerItemPost` always do both
  steps and do not model that partial outcome. The same holds for the lookups of
  `afficherItem`, `modifyPost` and `getAllAnnonces`.
- FormData: `price`, `departement` and `categorie` are typed `int`. The source hands
  the raw `$_POST` strings to `Annonce::create` unchecked (AddItemController.php:122-128),
  so a non-numeric value reaches the database as it was posted; the model does not
  capture that conversion or its failure.
- GetAllAnnonces: IndexController.php:6-7 imports `model\Photo` and `model\Annonceur`,
  while the other controllers import `App\Model\...`. The files shown do not say
  whether a `model\` namespace exists; the model assumes both names resolve to the
  photo and advertiser tables. If they do not, the home page fails with a
  class-not-found error on its first row, which the model does not capture.
- `validatePassword`: the test file calls it, but no shown file defines it, so it is
  not modelled.
- `loadAnnonceur` declares `int $id` and the listing's advertiser id may be null. In
  PHP that call raises a type error; here a null id gives a null advertiser
  (`LoadAnnonceur`).
- `loadCategorieName` is called by `modifyPost` but defined nowhere. `LoadCategorieName`
  models the evident intent: a lookup by category id (see Findings).
- Character encoding: strings are sequences of characters, compared as PCRE compares
  bytes for ASCII input; multi-byte input is not modelled. `[[:alnum:]]` and the `/i`
  flag are taken as ASCII.
- The breadcrumb texts are kept as written: `Acceuil` on the item page and `Accueil`
  on the home page.

## Findings

| source | as written | input that shows it | evidently intended | confidence | as-written member | corrected member |
|---|---|---|---|---|---|---|
| src/controller/ItemController.php:134-153 | with a verifying password, `updateAnnonce($n, $cat, $dpt)` passes the departments array into the `int $id` parameter, a type error. Otherwise a missing or unattached listing hands `null` to `loadAnnonceur(int $id)`, and every other request reaches `loadCategorieName`, which the class does not define | any listing `n` with its own password (type error at line 139), or with a wrong password (undefined method at line 151) | check the password, run the (empty) update, and render the modify page with the advertiser, department and category names; the store is never written | high, not executed | Item.ModifyPostAsWrittenNeverRenders | Item.ItemController.ModifyPost |
