/**
 * The home page (`IndexController`): the twelve newest listings, each with its
 * photo count, the URL of its first photo (or a placeholder) and its advertiser's
 * name, under a one-entry breadcrumb.
 */
module Index {
  import opened Wrappers
  import opened Listings
  import opened Item

  /** A listing row as the feed shows it. `nomAnnonceur` is `null` when no advertiser matches. */
  datatype FeedEntry = FeedEntry(annonce: Annonce, nbPhoto: nat, urlPhoto: string, nomAnnonceur: Option<string>)

  datatype IndexView = IndexView(breadcrumb: seq<MenuEntry>, annonces: seq<FeedEntry>)

  const FeedSize: nat := 12
  const NoImage := "/img/noimg.png"

  /** The home page's breadcrumb: a single link to the base path. */
  function Breadcrumb(chemin: string): (menu: seq<MenuEntry>)
    ensures |menu| == 1 && menu[0].href == chemin && menu[0].text == Some("Accueil")
  {
    [MenuEntry(chemin, Some("Accueil"))]
  }

  /** `SELECT nom_annonceur ... WHERE id_annonceur = id` followed by `->first()`. */
  function AdvertiserName(annonceurs: map<int, Annonceur>, id: Option<int>): (name: Option<string>)
    ensures name.Some? <==> id.Some? && id.value in annonceurs
    ensures name.Some? ==> name.value == annonceurs[id.value].nom
  {
    match id
    case None => None
    case Some(k) => if k in annonceurs then Some(annonceurs[k].nom) else None
  }

  /** One feed entry: the row enriched with its photo count, first photo and advertiser name. */
  function EntryFor(db: Db, t: Annonce): FeedEntry {
    var nb := CountPhotos(db.photos, t.id);
    var url := if nb > 0 then FirstPhotoUrl(db.photos, t.id) else NoImage;
    FeedEntry(t, nb, url, AdvertiserName(db.annonceurs, t.idAnnonceur))
  }

  /** The feed built from the newest rows, one entry per row, in query order. */
  function Feed(db: Db): seq<FeedEntry> {
    var rows := Newest(db.annonces, FeedSize);
    seq(|rows|, i requires 0 <= i < |rows| => EntryFor(db, rows[i]))
  }

  /** The listings behind a list of feed entries. */
  function Rows(entries: seq<FeedEntry>): seq<Annonce> {
    seq(|entries|, i requires 0 <= i < |entries| => entries[i].annonce)
  }

  class IndexController {
    /** The entries of the last feed built. */
    var annonce: seq<FeedEntry>

    constructor ()
      ensures annonce == []
    {
      annonce := [];
    }

    /** `getAllAnnonces`: builds the feed row by row, then replaces the field with it. */
    method GetAllAnnonces(store: Store)
      modifies this
      ensures annonce == Feed(store.State())
    {
      var tmp := Newest(store.annonces, FeedSize);
      var list: seq<FeedEntry> := [];
      for i := 0 to |tmp|
        invariant |list| == i
        invariant forall j :: 0 <= j < i ==> list[j] == EntryFor(store.State(), tmp[j])
      {
        var t := tmp[i];
        var nbPhoto := CountPhotos(store.photos, t.id);
        var urlPhoto := NoImage;
        if nbPhoto > 0 {
          urlPhoto := FirstPhotoUrl(store.photos, t.id);
        }
        var nomAnnonceur := AdvertiserName(store.annonceurs, t.idAnnonceur);
        list := list + [FeedEntry(t, nbPhoto, urlPhoto, nomAnnonceur)];
      }
      annonce := list;
    }

    /** `displayAllAnnonce`: the breadcrumb and the freshly built feed. */
    method DisplayAllAnnonce(store: Store, chemin: string) returns (view: IndexView)
      modifies this
      ensures annonce == Feed(store.State())
      ensures view == IndexView(Breadcrumb(chemin), annonce)
    {
      var menu := Breadcrumb(chemin);
      GetAllAnnonces(store);
      view := IndexView(menu, annonce);
    }
  }

  // ---------------------------------------------------------------------------
  // Properties of the feed

  /** At most twelve entries, and twelve whenever there are that many listings. */
  lemma FeedSizeBound(db: Db)
    ensures |Feed(db)| == Min(FeedSize, |db.annonces|)
    ensures |Feed(db)| <= 12
  {
    NewestLength(db.annonces, FeedSize);
  }

  /**
   * The feed shows the newest listings, newest first: its rows are exactly what
   * `ORDER BY id_annonce DESC LIMIT 12` returns.
   */
  lemma FeedIsNewestFirst(db: Db)
    requires WellFormed(db)
    ensures NewestFirst(db.annonces, FeedSize, Rows(Feed(db)))
  {
    NewestIsNewestFirst(db.annonces, FeedSize);
    assert Rows(Feed(db)) == Newest(db.annonces, FeedSize);
  }

  /** Entries come in strictly decreasing listing id order. */
  lemma FeedDescending(db: Db)
    requires WellFormed(db)
    ensures forall i, j :: 0 <= i < j < |Feed(db)| ==> Feed(db)[i].annonce.id > Feed(db)[j].annonce.id
  {
    FeedIsNewestFirst(db);
    var rows := Rows(Feed(db));
    assert forall i :: 0 <= i < |Feed(db)| ==> Feed(db)[i].annonce == rows[i];
  }

  /**
   * Each entry's photo count is the number of photos of its listing; the URL is the
   * placeholder when there is none and the first photo's URL otherwise; the name is
   * that of the advertiser whose id the listing carries.
   */
  lemma EntryFields(db: Db, t: Annonce)
    ensures var e := EntryFor(db, t);
      && e.annonce == t
      && e.nbPhoto == |PhotosOf(db.photos, t.id)|
      && (e.nbPhoto == 0 ==> e.urlPhoto == NoImage)
      && (e.nbPhoto > 0 ==> e.urlPhoto == PhotosOf(db.photos, t.id)[0].urlPhoto)
      && (e.nomAnnonceur.Some? <==> t.idAnnonceur.Some? && t.idAnnonceur.value in db.annonceurs)
      && (e.nomAnnonceur.Some? ==> e.nomAnnonceur.value == db.annonceurs[t.idAnnonceur.value].nom)
  {
    CountIsPhotosOf(db.photos, t.id);
  }

  /** In a well-formed store, every attached listing in the feed shows its advertiser's name. */
  lemma FeedNamesAttached(db: Db)
    requires WellFormed(db)
    ensures forall i :: 0 <= i < |Feed(db)| && Feed(db)[i].annonce.idAnnonceur.Some? ==>
      Feed(db)[i].nomAnnonceur.Some? && Feed(db)[i].nomAnnonceur.value ==
        db.annonceurs[Feed(db)[i].annonce.idAnnonceur.value].nom
  {
    NewestFromTable(db.annonces, FeedSize);
  }
}
