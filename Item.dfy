/**
 * One listing's pages (`ItemController`): show it, ask for and perform its deletion,
 * ask for and perform its modification. Deleting and modifying are gated on the
 * listing's password; `password_verify` is the `verify` parameter and the posted
 * password is `pass`.
 */
module Item {
  import opened Wrappers
  import opened PhpStrings
  import opened Listings

  /** One breadcrumb entry; `text` is `null` when the entry's lookup found nothing. */
  datatype MenuEntry = MenuEntry(href: string, text: Option<string>)

  /** A GET page: "404" when `Annonce::find` returns null, otherwise the rendered view. */
  datatype GetResponse<V> = NotFound404 | Shown(view: V)

  /**
   * A POST page. The handlers have no not-found guard: for a listing that is not there
   * they read a null password, the check fails, and the page goes out without a
   * listing. That path is the `NoListing` outcome, and it writes nothing.
   */
  datatype PostResponse<V> = NoListing | Posted(view: V)

  datatype ItemView = ItemView(
    breadcrumb: seq<MenuEntry>,
    annonce: Annonce,
    annonceur: Option<Annonceur>,
    dep: Option<string>,
    photos: seq<Photo>)

  datatype DeleteView = DeleteView(annonce: Annonce, pass: bool)

  datatype ModifyView = ModifyView(
    annonce: Annonce,
    annonceur: Option<Annonceur>,
    pass: bool,
    dptItem: Option<string>,
    categItem: Option<string>)

  // ---------------------------------------------------------------------------
  // Lookups and the breadcrumb

  /** `buildMenu`: home, the category page and the listing page. The category is looked up by the listing id `n`. */
  function BuildMenu(chemin: string, n: int, categories: map<int, Categorie>, titre: string): (menu: seq<MenuEntry>)
    ensures |menu| == 3
    ensures menu[0] == MenuEntry(chemin, Some("Acceuil"))
    ensures menu[1].text.Some? <==> n in categories
    ensures menu[1].text.Some? ==> menu[1].text.value == categories[n].nom
    ensures menu[2].text == Some(titre)
    ensures menu[1].href == chemin + "/cat/" + IntToString(n)
    ensures menu[2].href == chemin + "/itemController/" + IntToString(n)
    ensures forall k :: 0 <= k < 3 ==> |menu[k].href| >= |chemin| && menu[k].href[..|chemin|] == chemin
  {
    var category := if n in categories then Some(categories[n].nom) else None;
    [ MenuEntry(chemin, Some("Acceuil")),
      MenuEntry(chemin + "/cat/" + IntToString(n), category),
      MenuEntry(chemin + "/itemController/" + IntToString(n), Some(titre)) ]
  }

  lemma IntToStringInjective(a: int, b: int)
    requires IntToString(a) == IntToString(b)
    ensures a == b
  {
  }

  /** The three links differ from one another, and the listing link names the listing. */
  lemma {:induction false} MenuLinks(chemin: string, n: int, n': int, categories: map<int, Categorie>, titre: string, titre': string)
    ensures var menu := BuildMenu(chemin, n, categories, titre);
      && menu[0].href != menu[1].href && menu[0].href != menu[2].href && menu[1].href != menu[2].href
    ensures BuildMenu(chemin, n, categories, titre)[2].href == BuildMenu(chemin, n', categories, titre')[2].href ==> n == n'
  {
    var menu := BuildMenu(chemin, n, categories, titre);
    var c := |chemin|;
    assert menu[1].href[c + 1] == 'c' && menu[2].href[c + 1] == 'i';
    var prefix := chemin + "/itemController/";
    var h, h' := prefix + IntToString(n), prefix + IntToString(n');
    if h == h' {
      assert IntToString(n) == h[|prefix|..] == h'[|prefix|..] == IntToString(n');
      IntToStringInjective(n, n');
    }
  }

  /** `loadDepartementName`: the department's name, or null when there is none. */
  function LoadDepartementName(departements: map<int, Departement>, id: int): (name: Option<string>)
    ensures name.Some? <==> id in departements
    ensures name.Some? ==> name.value == departements[id].nom
  {
    match Find(departements, id)
    case Some(d) => Some(d.nom)
    case None => None
  }

  /** The category name the modify page shows, looked up by the listing's category id. */
  function LoadCategorieName(categories: map<int, Categorie>, id: int): (name: Option<string>)
    ensures name.Some? <==> id in categories
    ensures name.Some? ==> name.value == categories[id].nom
  {
    match Find(categories, id)
    case Some(c) => Some(c.nom)
    case None => None
  }

  /** `loadAnnonceur` on the listing's advertiser id. */
  function LoadAnnonceur(annonceurs: map<int, Annonceur>, id: Option<int>): (a: Option<Annonceur>)
    ensures a.Some? <==> id.Some? && id.value in annonceurs
    ensures a.Some? ==> a.value == annonceurs[id.value]
  {
    if id.Some? then Find(annonceurs, id.value) else None
  }

  /** The item controller's own `validateFormData`: no check is written, so there is never an error. */
  function ValidateFormData(formData: map<string, string>): (errors: map<string, string>)
    ensures |errors| == 0
  {
    map[]
  }

  // ---------------------------------------------------------------------------
  // What the POST handlers do to the tables

  /** Deleting listing `n`: its photos first, then the listing row. */
  function DeleteListing(db: Db, n: int): Db {
    db.(photos := RemovePhotosOf(db.photos, n), annonces := db.annonces - {n})
  }

  /** `supprimerItemPost` on the tables: delete only when the password verifies. */
  function DeletePost(db: Db, n: int, pass: string, verify: (string, string) -> bool): (Db, PostResponse<DeleteView>) {
    if n !in db.annonces then (db, NoListing)
    else if verify(pass, db.annonces[n].mdp) then (DeleteListing(db, n), Posted(DeleteView(db.annonces[n], true)))
    else (db, Posted(DeleteView(db.annonces[n], false)))
  }

  /** A password that does not verify leaves every table as it was. */
  lemma WrongPasswordKeepsStore(db: Db, n: int, pass: string, verify: (string, string) -> bool)
    requires n in db.annonces && !verify(pass, db.annonces[n].mdp)
    ensures DeletePost(db, n, pass, verify) == (db, Posted(DeleteView(db.annonces[n], false)))
  {
  }

  /** A missing listing is reported and leaves every table as it was. */
  lemma MissingListingKeepsStore(db: Db, n: int, pass: string, verify: (string, string) -> bool)
    requires n !in db.annonces
    ensures DeletePost(db, n, pass, verify).0 == db
    ensures DeletePost(db, n, pass, verify).1 == NoListing
  {
  }

  /**
   * A verified deletion removes listing `n` and every one of its photos, and keeps
   * every other listing, every other listing's photos, and every advertiser.
   */
  lemma {:induction false} VerifiedDeleteRemovesListing(db: Db, n: int, pass: string, verify: (string, string) -> bool)
    requires n in db.annonces && verify(pass, db.annonces[n].mdp)
    ensures var (db', r) := DeletePost(db, n, pass, verify);
      && r == Posted(DeleteView(db.annonces[n], true))
      && n !in db'.annonces
      && (forall k :: k in db.annonces && k != n ==> k in db'.annonces && db'.annonces[k] == db.annonces[k])
      && |db'.annonces| == |db.annonces| - 1
      && PhotosOf(db'.photos, n) == []
      && (forall m :: m != n ==> PhotosOf(db'.photos, m) == PhotosOf(db.photos, m))
      && |db'.photos| == |db.photos| - CountPhotos(db.photos, n)
      && db'.annonceurs == db.annonceurs
  {
    var db' := DeleteListing(db, n);
    forall m | m != n
      ensures PhotosOf(db'.photos, m) == PhotosOf(db.photos, m)
    {
      RemoveKeepsOthers(db.photos, n, m);
    }
    PhotosPartition(db.photos, n);
    CountIsPhotosOf(db.photos, n);
    var rest := db'.photos;
    if PhotosOf(rest, n) != [] {
      assert PhotosOf(rest, n)[0] in PhotosOf(rest, n);
    }
  }

  /** Whatever the password, a delete request keeps the tables well formed. */
  lemma DeletePostKeepsWellFormed(db: Db, n: int, pass: string, verify: (string, string) -> bool)
    requires WellFormed(db)
    ensures WellFormed(DeletePost(db, n, pass, verify).0)
  {
    var db' := DeleteListing(db, n);
    forall i | 0 <= i < |db'.photos|
      ensures db'.photos[i].idAnnonce < db'.nextAnnonceId
    {
      assert db'.photos[i] in db.photos;
    }
  }

  // ---------------------------------------------------------------------------
  // `modifyPost` as written

  /** An error PHP raises before the page is rendered. */
  datatype PhpError =
    | ArgumentTypeError  // an argument of the wrong type for a declared `int` parameter
    | UndefinedMethod    // a call to a method the class does not define

  datatype ModifyEnd = Rendered(view: ModifyView) | Raised(error: PhpError)

  /** A PHP value, as far as the argument checks below tell values apart. */
  datatype PhpValue = IntValue(i: int) | NullValue | ArrayValue

  /** PHP accepts `v` for a parameter declared `int` (not nullable) only when it is an int. */
  predicate AcceptsAsInt(v: PhpValue) {
    v.IntValue?
  }

  /** The argument check of `updateAnnonce(int $n, array $data, int $id)`. */
  predicate UpdateAnnonceAccepts(n: PhpValue, data: PhpValue, id: PhpValue) {
    AcceptsAsInt(n) && data.ArrayValue? && AcceptsAsInt(id)
  }

  /** The methods the `ItemController` class declares. */
  const ItemControllerMethods: set<string> := {
    "__construct", "afficherItem", "supprimerItemGet", "supprimerItemPost", "modifyGet",
    "modifyPost", "buildMenu", "loadAnnonceur", "loadDepartementName", "loadPhotos",
    "deletePhotos", "updateAnnonce", "validateFormData", "displayErrorPage", "loadTemplate" }

  /** The PHP value read from an optional integer column: `null` when absent. */
  function ColumnValue(v: Option<int>): PhpValue {
    if v.Some? then IntValue(v.value) else NullValue
  }

  /**
   * `modifyPost` step by step as the code is written: the update runs when the password
   * verifies, with the departments array as its third argument; then the view's
   * arguments are evaluated in order: `loadAnnonceur` on the listing's advertiser id
   * (`null` when there is no listing or it has no advertiser), `loadDepartementName`
   * on its department and `loadCategorieName` on its category. Each call first checks
   * that the method exists and that its arguments fit its declared types.
   */
  function ModifyPostAsWritten(db: Db, n: int, pass: string, verify: (string, string) -> bool): ModifyEnd {
    var row := if n in db.annonces then Some(db.annonces[n]) else None;
    var verified := row.Some? && verify(pass, row.value.mdp);
    if verified && !UpdateAnnonceAccepts(IntValue(n), ArrayValue, ArrayValue) then Raised(ArgumentTypeError)
    else
      var idAnnonceur := if row.Some? then ColumnValue(row.value.idAnnonceur) else NullValue;
      if !AcceptsAsInt(idAnnonceur) then Raised(ArgumentTypeError)
      else if "loadCategorieName" !in ItemControllerMethods then Raised(UndefinedMethod)
      else
        var a := row.value;
        Rendered(ModifyView(a, LoadAnnonceur(db.annonceurs, a.idAnnonceur), verified,
                            LoadDepartementName(db.departements, a.idDepartement),
                            LoadCategorieName(db.categories, a.idCategorie)))
  }

  /**
   * As written, the modify page is never rendered: a verified password ends in a type
   * error, and every other request ends in an error too.
   */
  lemma ModifyPostAsWrittenNeverRenders(db: Db, n: int, pass: string, verify: (string, string) -> bool)
    ensures !ModifyPostAsWritten(db, n, pass, verify).Rendered?
    ensures n in db.annonces && verify(pass, db.annonces[n].mdp) ==>
      ModifyPostAsWritten(db, n, pass, verify) == Raised(ArgumentTypeError)
    ensures n in db.annonces && db.annonces[n].idAnnonceur.Some? && !verify(pass, db.annonces[n].mdp) ==>
      ModifyPostAsWritten(db, n, pass, verify) == Raised(UndefinedMethod)
  {
    assert "loadCategorieName" !in ItemControllerMethods;
  }

  // ---------------------------------------------------------------------------
  // The controller

  class ItemController {
    /** The listing the last handler looked up, `null` when there was none. */
    var annonce: Option<Annonce>

    constructor ()
      ensures annonce == None
    {
      annonce := None;
    }

    /** `afficherItem`. */
    method AfficherItem(store: Store, chemin: string, n: int) returns (r: GetResponse<ItemView>)
      modifies this
      ensures annonce == store.FindAnnonce(n)
      ensures r.NotFound404? <==> n !in store.annonces
      ensures r.Shown? ==> r.view == ItemView(
        BuildMenu(chemin, n, store.categories, store.annonces[n].titre),
        store.annonces[n],
        LoadAnnonceur(store.annonceurs, store.annonces[n].idAnnonceur),
        LoadDepartementName(store.departements, store.annonces[n].idDepartement),
        PhotosOf(store.photos, n))
      ensures unchanged(store)
    {
      annonce := store.FindAnnonce(n);
      if annonce.None? {
        return NotFound404;
      }
      var a := annonce.value;
      var menu := BuildMenu(chemin, n, store.categories, a.titre);
      r := Shown(ItemView(menu, a, LoadAnnonceur(store.annonceurs, a.idAnnonceur),
                          LoadDepartementName(store.departements, a.idDepartement), PhotosOf(store.photos, n)));
    }

    /** `supprimerItemGet`: the confirmation form for deleting listing `n`. */
    method SupprimerItemGet(store: Store, n: int) returns (r: GetResponse<Annonce>)
      modifies this
      ensures annonce == store.FindAnnonce(n)
      ensures r.NotFound404? <==> n !in store.annonces
      ensures r.Shown? ==> r.view == store.annonces[n]
      ensures unchanged(store)
    {
      annonce := store.FindAnnonce(n);
      if annonce.None? {
        return NotFound404;
      }
      r := Shown(annonce.value);
    }

    /** `deletePhotos`. */
    method DeletePhotos(store: Store, n: int)
      modifies store
      ensures store.State() == old(store.State()).(photos := RemovePhotosOf(old(store.photos), n))
    {
      store.DeletePhotosOf(n);
    }

    /** `supprimerItemPost`: with the right password, the photos and then the listing are deleted. */
    method SupprimerItemPost(store: Store, n: int, pass: string, verify: (string, string) -> bool)
      returns (r: PostResponse<DeleteView>)
      modifies this, store
      ensures annonce == old(store.FindAnnonce(n))
      ensures (store.State(), r) == DeletePost(old(store.State()), n, pass, verify)
    {
      annonce := store.FindAnnonce(n);
      if annonce.None? {
        return NoListing;
      }
      var reponse := false;
      if verify(pass, annonce.value.mdp) {
        reponse := true;
        DeletePhotos(store, n);
        store.DeleteAnnonce(n);
      }
      r := Posted(DeleteView(annonce.value, reponse));
    }

    /** `modifyGet`: the edit form for listing `id`. */
    method ModifyGet(store: Store, id: int) returns (r: GetResponse<Annonce>)
      modifies this
      ensures annonce == store.FindAnnonce(id)
      ensures r.NotFound404? <==> id !in store.annonces
      ensures r.Shown? ==> r.view == store.annonces[id]
      ensures unchanged(store)
    {
      annonce := store.FindAnnonce(id);
      if annonce.None? {
        return NotFound404;
      }
      r := Shown(annonce.value);
    }

    /** `updateAnnonce`: its body is a placeholder, so it changes nothing. */
    method UpdateAnnonce(n: int)
    {
    }

    /**
     * `modifyPost`: the password is checked and the (empty) update runs when it
     * verifies; the store is never written.
     */
    method ModifyPost(store: Store, n: int, pass: string, verify: (string, string) -> bool)
      returns (r: PostResponse<ModifyView>)
      modifies this
      ensures annonce == store.FindAnnonce(n)
      ensures r.NoListing? <==> n !in store.annonces
      ensures r.Posted? ==> r.view == ModifyView(
        store.annonces[n],
        LoadAnnonceur(store.annonceurs, store.annonces[n].idAnnonceur),
        verify(pass, store.annonces[n].mdp),
        LoadDepartementName(store.departements, store.annonces[n].idDepartement),
        LoadCategorieName(store.categories, store.annonces[n].idCategorie))
      ensures unchanged(store)
    {
      annonce := store.FindAnnonce(n);
      if annonce.None? {
        return NoListing;
      }
      var a := annonce.value;
      var reponse := false;
      if verify(pass, a.mdp) {
        reponse := true;
        UpdateAnnonce(n);
      }
      r := Posted(ModifyView(a, LoadAnnonceur(store.annonceurs, a.idAnnonceur), reponse,
                             LoadDepartementName(store.departements, a.idDepartement),
                             LoadCategorieName(store.categories, a.idCategorie)));
    }
  }
}
