/** How a posted listing and its deletion combine. */
module Lifecycle {
  import opened Wrappers
  import opened Listings
  import opened AddItem
  import opened Item

  /**
   * Posting a listing and then deleting it with the password it was posted with
   * gives back the listings and photos tables as they were; the advertiser created
   * on the way stays.
   */
  lemma CreateThenDelete(db: Db, form: FormData, hash: string -> string, verify: (string, string) -> bool, today: string)
    requires WellFormed(db)
    requires forall p :: verify(p, hash(p))
    ensures var db1 := Submit(db, form, map[], hash, today, None).0;
      var (db2, r) := DeletePost(db1, db.nextAnnonceId, form.psw, verify);
      && r.Posted? && r.view.pass
      && db2.annonces == db.annonces
      && db2.photos == db.photos
      && db2.annonceurs == db.annonceurs[db.nextAnnonceurId := NewAnnonceur(form, db.nextAnnonceurId)]
  {
    var id := db.nextAnnonceId;
    SuccessfulSubmission(db, form, hash, map[], today);
    var db1 := Submit(db, form, map[], hash, today, None).0;
    assert verify(form.psw, db1.annonces[id].mdp) by {
      StoredPasswordVerifies(db, form, hash, verify, map[], today);
    }
    assert db1.annonces - {id} == db.annonces;
    RemoveAbsent(db.photos, id);
  }
}
