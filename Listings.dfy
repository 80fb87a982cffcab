/**
 * The tables the controllers read and write: listings (`annonce`), advertisers
 * (`annonceur`), photos, departments and categories, held by an in-memory `Store`
 * that stands for the database behind the ORM. Auto-increment ids are counters.
 */
module Listings {
  import opened Wrappers

  /** A listing. `idAnnonceur` is `None` until the listing is attached to its advertiser. */
  datatype Annonce = Annonce(
    id: int,
    titre: string,
    description: string,
    prix: int,
    ville: string,
    idDepartement: int,
    idCategorie: int,
    mdp: string,
    date: string,
    idAnnonceur: Option<int>)

  datatype Annonceur = Annonceur(id: int, email: string, nom: string, telephone: string)

  datatype Photo = Photo(id: int, idAnnonce: int, urlPhoto: string)

  datatype Departement = Departement(id: int, nom: string)

  datatype Categorie = Categorie(id: int, nom: string)

  /** A snapshot of every table and of the two auto-increment counters. */
  datatype Db = Db(
    annonces: map<int, Annonce>,
    annonceurs: map<int, Annonceur>,
    photos: seq<Photo>,
    departements: map<int, Departement>,
    categories: map<int, Categorie>,
    nextAnnonceId: nat,
    nextAnnonceurId: nat)

  /**
   * Every row is stored under its own id, every id was handed out by its counter,
   * a listing only refers to an advertiser that exists, and a photo only to a
   * listing id already handed out.
   */
  predicate WellFormed(db: Db) {
    && (forall k :: k in db.annonces ==> db.annonces[k].id == k && 0 <= k < db.nextAnnonceId)
    && (forall k :: k in db.annonceurs ==> db.annonceurs[k].id == k && 0 <= k < db.nextAnnonceurId)
    && (forall k :: k in db.annonces && db.annonces[k].idAnnonceur.Some? ==>
          db.annonces[k].idAnnonceur.value in db.annonceurs)
    && (forall i :: 0 <= i < |db.photos| ==> db.photos[i].idAnnonce < db.nextAnnonceId)
    && (forall k :: k in db.departements ==> db.departements[k].id == k)
    && (forall k :: k in db.categories ==> db.categories[k].id == k)
  }

  // ---------------------------------------------------------------------------
  // Photos of one listing

  /** The photos whose `id_annonce` is `n`, in table order. */
  function PhotosOf(photos: seq<Photo>, n: int): (r: seq<Photo>)
    ensures |r| <= |photos|
    ensures forall p :: p in r ==> p.idAnnonce == n && p in photos
    ensures forall p :: p in photos && p.idAnnonce == n ==> p in r
  {
    if photos == [] then []
    else if photos[0].idAnnonce == n then [photos[0]] + PhotosOf(photos[1..], n)
    else PhotosOf(photos[1..], n)
  }

  /** The photos whose `id_annonce` is not `n`, in table order. */
  function RemovePhotosOf(photos: seq<Photo>, n: int): (r: seq<Photo>)
    ensures |r| <= |photos|
    ensures forall p :: p in r ==> p.idAnnonce != n && p in photos
    ensures forall p :: p in photos && p.idAnnonce != n ==> p in r
  {
    if photos == [] then []
    else if photos[0].idAnnonce == n then RemovePhotosOf(photos[1..], n)
    else [photos[0]] + RemovePhotosOf(photos[1..], n)
  }

  /** Selecting the photos of `n` keeps table order: it distributes over concatenation. */
  lemma {:induction false} PhotosOfConcat(a: seq<Photo>, b: seq<Photo>, n: int)
    ensures PhotosOf(a + b, n) == PhotosOf(a, n) + PhotosOf(b, n)
    decreases |a|
  {
    if a == [] {
      assert a + b == b;
    } else {
      var ab := a + b;
      assert ab[0] == a[0] && ab[1..] == a[1..] + b;
      PhotosOfConcat(a[1..], b, n);
      if a[0].idAnnonce == n {
        assert PhotosOf(ab, n) == [a[0]] + PhotosOf(a[1..] + b, n);
        assert PhotosOf(a, n) == [a[0]] + PhotosOf(a[1..], n);
      }
    }
  }

  /** Removing the photos of `n` keeps table order too. */
  lemma {:induction false} RemovePhotosOfConcat(a: seq<Photo>, b: seq<Photo>, n: int)
    ensures RemovePhotosOf(a + b, n) == RemovePhotosOf(a, n) + RemovePhotosOf(b, n)
    decreases |a|
  {
    if a == [] {
      assert a + b == b;
    } else {
      var ab := a + b;
      assert ab[0] == a[0] && ab[1..] == a[1..] + b;
      RemovePhotosOfConcat(a[1..], b, n);
      if a[0].idAnnonce != n {
        assert RemovePhotosOf(ab, n) == [a[0]] + RemovePhotosOf(a[1..] + b, n);
        assert RemovePhotosOf(a, n) == [a[0]] + RemovePhotosOf(a[1..], n);
      }
    }
  }

  /** The earliest table row carrying the id `n` is the first of the listing's photos. */
  lemma {:induction false} FirstPhotoIsFirstInTable(photos: seq<Photo>, n: int, i: nat)
    requires i < |photos| && photos[i].idAnnonce == n
    requires forall j :: 0 <= j < i ==> photos[j].idAnnonce != n
    ensures PhotosOf(photos, n) != [] && PhotosOf(photos, n)[0] == photos[i]
  {
    if i > 0 {
      var rest := photos[1..];
      assert photos[0].idAnnonce != n;
      assert forall j :: 0 <= j < i - 1 ==> rest[j] == photos[j + 1];
      FirstPhotoIsFirstInTable(rest, n, i - 1);
    }
  }

  /** `COUNT(*) ... WHERE id_annonce = n`. */
  function CountPhotos(photos: seq<Photo>, n: int): nat {
    if photos == [] then 0
    else (if photos[0].idAnnonce == n then 1 else 0) + CountPhotos(photos[1..], n)
  }

  /** The count query agrees with the rows the select query returns. */
  lemma {:induction false} CountIsPhotosOf(photos: seq<Photo>, n: int)
    ensures CountPhotos(photos, n) == |PhotosOf(photos, n)|
  {
    if photos != [] {
      CountIsPhotosOf(photos[1..], n);
    }
  }

  /** Removing the photos of `n` and keeping them split the table without loss. */
  lemma {:induction false} PhotosPartition(photos: seq<Photo>, n: int)
    ensures multiset(PhotosOf(photos, n)) + multiset(RemovePhotosOf(photos, n)) == multiset(photos)
    ensures |PhotosOf(photos, n)| + |RemovePhotosOf(photos, n)| == |photos|
  {
    if photos != [] {
      PhotosPartition(photos[1..], n);
      assert photos == [photos[0]] + photos[1..];
    }
  }

  /** The photos of any other listing are exactly those before the removal. */
  lemma {:induction false} RemoveKeepsOthers(photos: seq<Photo>, n: int, m: int)
    requires m != n
    ensures PhotosOf(RemovePhotosOf(photos, n), m) == PhotosOf(photos, m)
  {
    if photos != [] {
      RemoveKeepsOthers(photos[1..], n, m);
      if photos[0].idAnnonce != n {
        assert ([photos[0]] + RemovePhotosOf(photos[1..], n))[1..] == RemovePhotosOf(photos[1..], n);
      }
    }
  }

  /** When no photo belongs to `n`, removing its photos changes nothing. */
  lemma {:induction false} RemoveAbsent(photos: seq<Photo>, n: int)
    requires forall i :: 0 <= i < |photos| ==> photos[i].idAnnonce != n
    ensures RemovePhotosOf(photos, n) == photos
  {
    if photos != [] {
      RemoveAbsent(photos[1..], n);
      assert photos == [photos[0]] + photos[1..];
    }
  }

  /** `->first()` on the photos of `n`: the URL of the first one in table order. */
  function FirstPhotoUrl(photos: seq<Photo>, n: int): (url: string)
    requires CountPhotos(photos, n) > 0
    ensures |PhotosOf(photos, n)| > 0 && url == PhotosOf(photos, n)[0].urlPhoto
  {
    CountIsPhotosOf(photos, n);
    if photos[0].idAnnonce == n then photos[0].urlPhoto else FirstPhotoUrl(photos[1..], n)
  }

  // ---------------------------------------------------------------------------
  // Newest listings first

  /** A finite non-empty set of ids has a largest element. */
  lemma {:induction false} LargestOf(s: set<int>) returns (top: int)
    requires s != {}
    ensures top in s && forall j :: j in s ==> j <= top
    decreases |s|
  {
    if forall x :: x !in s {
      assert false;
    }
    var x :| x in s;
    if s == {x} {
      top := x;
    } else {
      var rest := s - {x};
      var k := LargestOf(rest);
      top := if x > k then x else k;
      forall j | j in s
        ensures j <= top
      {
        if j != x {
          assert j in rest;
        }
      }
    }
  }

  lemma MaxExists(s: set<int>)
    requires s != {}
    ensures exists k :: k in s && forall j :: j in s ==> j <= k
  {
    var top := LargestOf(s);
  }

  function MaxKey(s: set<int>): (k: int)
    requires s != {}
    ensures k in s && forall j :: j in s ==> j <= k
  {
    MaxExists(s);
    var k :| k in s && forall j :: j in s ==> j <= k;
    k
  }

  /** `ORDER BY id_annonce DESC LIMIT limit` over the listings table. */
  function Newest(m: map<int, Annonce>, limit: nat): seq<Annonce>
    decreases limit
  {
    if limit == 0 || m.Keys == {} then []
    else
      var k := MaxKey(m.Keys);
      [m[k]] + Newest(m - {k}, limit - 1)
  }

  function Min(a: nat, b: nat): nat { if a <= b then a else b }

  /**
   * What the query returns: as many rows as the limit allows, taken from the table,
   * under their own keys, in strictly decreasing id order, and no row left out is
   * newer than one returned.
   */
  ghost predicate NewestFirst(m: map<int, Annonce>, limit: nat, rows: seq<Annonce>) {
    && |rows| == Min(limit, |m|)
    && (forall i :: 0 <= i < |rows| ==> rows[i].id in m && m[rows[i].id] == rows[i])
    && (forall i, j :: 0 <= i < j < |rows| ==> rows[i].id > rows[j].id)
    && (forall k, i :: k in m && 0 <= i < |rows| && k > rows[i].id ==> exists j :: 0 <= j < i && rows[j].id == k)
  }

  lemma {:induction false} NewestLength(m: map<int, Annonce>, limit: nat)
    ensures |Newest(m, limit)| == Min(limit, |m|)
    decreases limit
  {
    if limit == 0 || m.Keys == {} {
      assert |m| == |m.Keys|;
    } else {
      var k := MaxKey(m.Keys);
      NewestLength(m - {k}, limit - 1);
      assert (m - {k}).Keys == m.Keys - {k};
      assert |m| == |m.Keys| && |m - {k}| == |(m - {k}).Keys|;
    }
  }

  lemma {:induction false} NewestFromTable(m: map<int, Annonce>, limit: nat)
    requires forall k :: k in m ==> m[k].id == k
    ensures forall i :: 0 <= i < |Newest(m, limit)| ==>
      Newest(m, limit)[i].id in m && m[Newest(m, limit)[i].id] == Newest(m, limit)[i]
    decreases limit
  {
    if limit != 0 && m.Keys != {} {
      var k := MaxKey(m.Keys);
      NewestFromTable(m - {k}, limit - 1);
      var tail := Newest(m - {k}, limit - 1);
      assert Newest(m, limit) == [m[k]] + tail;
    }
  }

  lemma {:induction false} NewestDescending(m: map<int, Annonce>, limit: nat)
    requires forall k :: k in m ==> m[k].id == k
    ensures forall i, j :: 0 <= i < j < |Newest(m, limit)| ==> Newest(m, limit)[i].id > Newest(m, limit)[j].id
    decreases limit
  {
    if limit != 0 && m.Keys != {} {
      var k := MaxKey(m.Keys);
      NewestDescending(m - {k}, limit - 1);
      NewestFromTable(m - {k}, limit - 1);
      var tail := Newest(m - {k}, limit - 1);
      var rows := [m[k]] + tail;
      assert Newest(m, limit) == rows;
      forall i, j | 0 <= i < j < |rows|
        ensures rows[i].id > rows[j].id
      {
        assert rows[j] == tail[j - 1];
        if i > 0 {
          assert rows[i] == tail[i - 1];
        }
      }
    }
  }

  lemma {:induction false} NewestComplete(m: map<int, Annonce>, limit: nat)
    requires forall k :: k in m ==> m[k].id == k
    ensures forall k, i :: k in m && 0 <= i < |Newest(m, limit)| && k > Newest(m, limit)[i].id ==>
      exists j :: 0 <= j < i && Newest(m, limit)[j].id == k
    decreases limit
  {
    if limit != 0 && m.Keys != {} {
      var k := MaxKey(m.Keys);
      NewestComplete(m - {k}, limit - 1);
      var tail := Newest(m - {k}, limit - 1);
      var rows := [m[k]] + tail;
      assert Newest(m, limit) == rows;
      forall k2, i | k2 in m && 0 <= i < |rows| && k2 > rows[i].id
        ensures exists j :: 0 <= j < i && rows[j].id == k2
      {
        assert rows[0].id == k;
        if k2 == k {
          assert rows[0].id == k2;
        } else {
          assert k2 in m - {k};
          assert i > 0 && rows[i] == tail[i - 1];
          var j :| 0 <= j < i - 1 && tail[j].id == k2;
          assert rows[j + 1] == tail[j];
        }
      }
    }
  }

  /** The query returns the newest rows, newest first. */
  lemma NewestIsNewestFirst(m: map<int, Annonce>, limit: nat)
    requires forall k :: k in m ==> m[k].id == k
    ensures NewestFirst(m, limit, Newest(m, limit))
  {
    NewestLength(m, limit);
    NewestFromTable(m, limit);
    NewestDescending(m, limit);
    NewestComplete(m, limit);
  }

  /** The query's answer is the only one with these properties. */
  lemma NewestFirstUnique(m: map<int, Annonce>, limit: nat, rows: seq<Annonce>, rows': seq<Annonce>)
    requires NewestFirst(m, limit, rows) && NewestFirst(m, limit, rows')
    ensures rows == rows'
  {
    forall i | 0 <= i < |rows|
      ensures rows[i] == rows'[i]
    {
      NewestFirstAt(m, limit, rows, rows', i);
    }
  }

  lemma {:induction false} NewestFirstAt(m: map<int, Annonce>, limit: nat, rows: seq<Annonce>, rows': seq<Annonce>, i: nat)
    requires NewestFirst(m, limit, rows) && NewestFirst(m, limit, rows')
    requires i < |rows|
    ensures rows[i] == rows'[i]
    decreases i
  {
    var a, b := rows[i].id, rows'[i].id;
    if a > b {
      var j :| 0 <= j < i && rows'[j].id == a;
      NewestFirstAt(m, limit, rows, rows', j);
      assert false;
    } else if b > a {
      var j :| 0 <= j < i && rows[j].id == b;
      NewestFirstAt(m, limit, rows, rows', j);
      assert false;
    }
  }

  // ---------------------------------------------------------------------------
  // The store

  /** The database. The controllers read and write its tables in place. */
  class Store {
    var annonces: map<int, Annonce>
    var annonceurs: map<int, Annonceur>
    var photos: seq<Photo>
    var departements: map<int, Departement>
    var categories: map<int, Categorie>
    var nextAnnonceId: nat
    var nextAnnonceurId: nat

    constructor (db: Db)
      ensures State() == db
    {
      annonces := db.annonces;
      annonceurs := db.annonceurs;
      photos := db.photos;
      departements := db.departements;
      categories := db.categories;
      nextAnnonceId := db.nextAnnonceId;
      nextAnnonceurId := db.nextAnnonceurId;
    }

    function State(): Db
      reads this
    {
      Db(annonces, annonceurs, photos, departements, categories, nextAnnonceId, nextAnnonceurId)
    }

    /** `Annonce::find(n)`. */
    function FindAnnonce(n: int): (r: Option<Annonce>)
      reads this
      ensures r.Some? <==> n in annonces
      ensures r.Some? ==> r.value == annonces[n]
    {
      Find(annonces, n)
    }

    /** `Annonceur::create([...])`: a new row under the next advertiser id. */
    method InsertAnnonceur(email: string, nom: string, telephone: string) returns (a: Annonceur)
      modifies this
      ensures a == Annonceur(old(nextAnnonceurId), email, nom, telephone)
      ensures State() == old(State()).(annonceurs := old(annonceurs)[a.id := a], nextAnnonceurId := old(nextAnnonceurId) + 1)
    {
      a := Annonceur(nextAnnonceurId, email, nom, telephone);
      annonceurs := annonceurs[a.id := a];
      nextAnnonceurId := nextAnnonceurId + 1;
    }

    /** `Annonce::create([...])`: a new row under the next listing id, not yet attached. */
    method InsertAnnonce(titre: string, description: string, prix: int, ville: string,
                         idDepartement: int, idCategorie: int, mdp: string, date: string)
      returns (a: Annonce)
      modifies this
      ensures a == Annonce(old(nextAnnonceId), titre, description, prix, ville, idDepartement, idCategorie, mdp, date, None)
      ensures State() == old(State()).(annonces := old(annonces)[a.id := a], nextAnnonceId := old(nextAnnonceId) + 1)
    {
      a := Annonce(nextAnnonceId, titre, description, prix, ville, idDepartement, idCategorie, mdp, date, None);
      annonces := annonces[a.id := a];
      nextAnnonceId := nextAnnonceId + 1;
    }

    /** `$annonceur->annonce()->save($annonce)`: writes the advertiser id into the listing row. */
    method SaveAnnonceFor(annonceur: Annonceur, annonce: Annonce) returns (saved: Annonce)
      modifies this
      ensures saved == annonce.(idAnnonceur := Some(annonceur.id))
      ensures State() == old(State()).(annonces := old(annonces)[annonce.id := saved])
    {
      saved := annonce.(idAnnonceur := Some(annonceur.id));
      annonces := annonces[annonce.id := saved];
    }

    /** `Photo::where('id_annonce', '=', n)->delete()`. */
    method DeletePhotosOf(n: int)
      modifies this
      ensures State() == old(State()).(photos := RemovePhotosOf(old(photos), n))
    {
      photos := RemovePhotosOf(photos, n);
    }

    /** `$annonce->delete()`. */
    method DeleteAnnonce(n: int)
      modifies this
      ensures State() == old(State()).(annonces := old(annonces) - {n})
    {
      annonces := annonces - {n};
    }
  }
}
