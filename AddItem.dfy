/**
 * Posting a new listing (`AddItemController`): the submitted form is validated;
 * when it is accepted the advertiser is created, then the listing with a hashed
 * password, then the listing is attached to the advertiser. A storage failure in
 * any step ends the flow on the error page; nothing already written is undone.
 *
 * `password_hash`, `filter_var(..., FILTER_SANITIZE_STRING)` and
 * `filter_var(..., FILTER_VALIDATE_EMAIL)` are PHP library calls: they are
 * parameters here, and the clock's `date('Y-m-d')` is the `today` argument.
 */
module AddItem {
  import opened Wrappers
  import opened PhpStrings
  import opened Listings

  /** The fields of the posted form that the controller reads. */
  datatype FormData = FormData(
    nom: string,
    email: string,
    phone: string,
    ville: string,
    departement: int,
    categorie: int,
    title: string,
    description: string,
    price: int,
    psw: string)

  const NameKey := "nameAdvertiser"
  const EmailKey := "emailAdvertiser"
  const NameMessage := "Veuillez entrer votre nom"
  const EmailMessage := "Veuillez entrer une adresse mail correcte"

  /**
   * The error map: a name error when the sanitized, trimmed name is empty in PHP's
   * sense, an email error when the trimmed address does not validate.
   */
  function ValidateFormData(form: FormData, sanitize: string -> string, validEmail: string -> bool)
    : (errors: map<string, string>)
    ensures errors.Keys <= {NameKey, EmailKey}
    ensures NameKey in errors <==> IsPhpEmpty(sanitize(Trim(form.nom)))
    ensures EmailKey in errors <==> !validEmail(Trim(form.email))
    ensures NameKey in errors ==> errors[NameKey] == NameMessage
    ensures EmailKey in errors ==> errors[EmailKey] == EmailMessage
  {
    var nom := sanitize(Trim(form.nom));
    var emailValid := validEmail(Trim(form.email));
    var errors := if IsPhpEmpty(nom) then map[NameKey := NameMessage] else map[];
    if !emailValid then errors[EmailKey := EmailMessage] else errors
  }

  /** A form whose name is empty is refused, whatever its address. */
  lemma EmptyNameRefused(form: FormData, sanitize: string -> string, validEmail: string -> bool)
    requires form.nom == "" && sanitize("") == ""
    ensures ValidateFormData(form, sanitize, validEmail) != map[]
  {
    TrimKeeps(form.nom);
    assert NameKey in ValidateFormData(form, sanitize, validEmail);
  }

  /** A form whose address does not validate carries a non-empty email message. */
  lemma InvalidEmailRefused(form: FormData, sanitize: string -> string, validEmail: string -> bool)
    requires form.email == "invalidemail" && !validEmail("invalidemail")
    ensures EmailKey in ValidateFormData(form, sanitize, validEmail)
    ensures ValidateFormData(form, sanitize, validEmail)[EmailKey] != ""
  {
    assert form.email[0] == 'i' && form.email[|form.email| - 1] == 'l';
    TrimKeeps(form.email);
  }

  // ---------------------------------------------------------------------------
  // Rows written by the three steps

  /** The advertiser row built from the form: the raw name, address and phone. */
  function NewAnnonceur(form: FormData, id: int): Annonceur {
    Annonceur(id, form.email, form.nom, form.phone)
  }

  /** The listing row built from the form, with the hashed password and today's date. */
  function NewAnnonce(form: FormData, id: int, hash: string -> string, today: string): Annonce {
    Annonce(id, form.title, form.description, form.price, form.ville, form.departement,
            form.categorie, hash(form.psw), today, None)
  }

  function WithAnnonceur(db: Db, form: FormData): Db {
    db.(annonceurs := db.annonceurs[db.nextAnnonceurId := NewAnnonceur(form, db.nextAnnonceurId)],
        nextAnnonceurId := db.nextAnnonceurId + 1)
  }

  function WithAnnonce(db: Db, form: FormData, hash: string -> string, today: string): Db {
    db.(annonces := db.annonces[db.nextAnnonceId := NewAnnonce(form, db.nextAnnonceId, hash, today)],
        nextAnnonceId := db.nextAnnonceId + 1)
  }

  function Associated(db: Db, advertiser: int, listing: int): Db
    requires listing in db.annonces
  {
    db.(annonces := db.annonces[listing := db.annonces[listing].(idAnnonceur := Some(advertiser))])
  }

  /** The step of the create flow at which the storage layer throws, if any. */
  datatype Step = CreateAdvertiser | CreateListing | Associate

  datatype AddOutcome = ErrorPage(errors: map<string, string>) | Confirmation | DatabaseError

  /** What a submission does to the tables and which page it ends on. */
  function Submit(db: Db, form: FormData, errors: map<string, string>, hash: string -> string,
                  today: string, failing: Option<Step>): (Db, AddOutcome)
  {
    if errors != map[] then (db, ErrorPage(errors))
    else if failing == Some(CreateAdvertiser) then (db, DatabaseError)
    else
      var db1 := WithAnnonceur(db, form);
      if failing == Some(CreateListing) then (db1, DatabaseError)
      else
        var db2 := WithAnnonce(db1, form, hash, today);
        if failing == Some(Associate) then (db2, DatabaseError)
        else (Associated(db2, db.nextAnnonceurId, db.nextAnnonceId), Confirmation)
  }

  // ---------------------------------------------------------------------------
  // The controller

  /** `createAnnonceur`: inserts the advertiser row built from the form. */
  method CreateAnnonceur(store: Store, form: FormData) returns (annonceur: Annonceur)
    modifies store
    ensures annonceur == NewAnnonceur(form, old(store.nextAnnonceurId))
    ensures store.State() == WithAnnonceur(old(store.State()), form)
  {
    annonceur := store.InsertAnnonceur(form.email, form.nom, form.phone);
  }

  /** `createAnnonce`: inserts the listing row built from the form, password hashed. */
  method CreateAnnonce(store: Store, form: FormData, hash: string -> string, today: string)
    returns (annonce: Annonce)
    modifies store
    ensures annonce == NewAnnonce(form, old(store.nextAnnonceId), hash, today)
    ensures store.State() == WithAnnonce(old(store.State()), form, hash, today)
  {
    annonce := store.InsertAnnonce(form.title, form.description, form.price, form.ville,
                                   form.departement, form.categorie, hash(form.psw), today);
  }

  /** `associateAnnonceToAnnonceur`: records the advertiser's id in the listing row. */
  method AssociateAnnonceToAnnonceur(store: Store, annonceur: Annonceur, annonce: Annonce)
    modifies store
    requires annonce.id in store.annonces && store.annonces[annonce.id] == annonce
    ensures store.State() == Associated(old(store.State()), annonceur.id, annonce.id)
  {
    var saved := store.SaveAnnonceFor(annonceur, annonce);
  }

  /**
   * `addNewItem`: validate, then create the advertiser, the listing and the link,
   * stopping at the step named by `failing`.
   */
  method AddNewItem(store: Store, form: FormData, hash: string -> string, sanitize: string -> string,
                    validEmail: string -> bool, today: string, failing: Option<Step>)
    returns (outcome: AddOutcome)
    modifies store
    ensures (store.State(), outcome) ==
      Submit(old(store.State()), form, ValidateFormData(form, sanitize, validEmail), hash, today, failing)
  {
    var errors := ValidateFormData(form, sanitize, validEmail);
    if errors != map[] {
      return ErrorPage(errors);
    }
    if failing == Some(CreateAdvertiser) {
      return DatabaseError;
    }
    var annonceur := CreateAnnonceur(store, form);
    if failing == Some(CreateListing) {
      return DatabaseError;
    }
    var annonce := CreateAnnonce(store, form, hash, today);
    if failing == Some(Associate) {
      return DatabaseError;
    }
    AssociateAnnonceToAnnonceur(store, annonceur, annonce);
    outcome := Confirmation;
  }

  // ---------------------------------------------------------------------------
  // Properties of a submission

  /** A refused form writes nothing and shows exactly the validation errors. */
  lemma RefusedFormWritesNothing(db: Db, form: FormData, hash: string -> string, errors: map<string, string>, today: string, failing: Option<Step>)
    requires errors != map[]
    ensures var (db', outcome) := Submit(db, form, errors, hash, today, failing);
      && db'.annonces == db.annonces && db'.annonceurs == db.annonceurs
      && outcome == ErrorPage(errors)
  {
  }

  /** The confirmation page is shown exactly when the form is valid and no step failed. */
  lemma ConfirmedIffAllStepsRan(db: Db, form: FormData, hash: string -> string, errors: map<string, string>, today: string, failing: Option<Step>)
    ensures Submit(db, form, errors, hash, today, failing).1 == Confirmation
        <==> errors == map[] && failing == None
  {
    if errors == map[] && failing.Some? {
      match failing.value
      case CreateAdvertiser =>
      case CreateListing =>
      case Associate =>
    }
  }

  /**
   * A successful submission adds exactly one advertiser and one listing under fresh ids;
   * the listing carries the form's fields, the hashed password and the new advertiser's
   * id, and every row that was there before is kept as it was.
   */
  lemma {:induction false} SuccessfulSubmission(db: Db, form: FormData, hash: string -> string,
                                               errors: map<string, string>, today: string)
    requires WellFormed(db)
    requires errors == map[]
    ensures var (db', outcome) := Submit(db, form, errors, hash, today, None);
      var ann := db'.annonces[db.nextAnnonceId];
      && outcome == Confirmation
      && db.nextAnnonceId !in db.annonces && db.nextAnnonceurId !in db.annonceurs
      && db'.annonces == db.annonces[db.nextAnnonceId := ann]
      && db'.annonceurs == db.annonceurs[db.nextAnnonceurId := Annonceur(db.nextAnnonceurId, form.email, form.nom, form.phone)]
      && |db'.annonces| == |db.annonces| + 1 && |db'.annonceurs| == |db.annonceurs| + 1
      && ann.titre == form.title && ann.description == form.description && ann.prix == form.price
      && ann.ville == form.ville && ann.idDepartement == form.departement && ann.idCategorie == form.categorie
      && ann.mdp == hash(form.psw) && ann.date == today
      && ann.idAnnonceur == Some(db.nextAnnonceurId)
      && db'.photos == db.photos
  {
    var db1 := WithAnnonceur(db, form);
    var db2 := WithAnnonce(db1, form, hash, today);
    var db' := Associated(db2, db.nextAnnonceurId, db.nextAnnonceId);
    assert Submit(db, form, errors, hash, today, None) == (db', Confirmation);
    var ann := NewAnnonce(form, db.nextAnnonceId, hash, today).(idAnnonceur := Some(db.nextAnnonceurId));
    assert db'.annonces == db.annonces[db.nextAnnonceId := ann];
    assert db.nextAnnonceId !in db.annonces && db.nextAnnonceurId !in db.annonceurs;
  }

  /** The stored password verifies against the submitted one, for a hash that `verify` accepts. */
  lemma StoredPasswordVerifies(db: Db, form: FormData, hash: string -> string, verify: (string, string) -> bool,
                               errors: map<string, string>, today: string)
    requires forall p :: verify(p, hash(p))
    requires errors == map[]
    ensures var db' := Submit(db, form, errors, hash, today, None).0;
      db.nextAnnonceId in db'.annonces && verify(form.psw, db'.annonces[db.nextAnnonceId].mdp)
  {
    var db' := Submit(db, form, errors, hash, today, None).0;
    assert db'.annonces[db.nextAnnonceId].mdp == hash(form.psw);
  }

  /** The submitted password itself is never stored, for a hash that never returns its input. */
  lemma StoredPasswordNotPlain(db: Db, form: FormData, hash: string -> string,
                               errors: map<string, string>, today: string)
    requires forall p :: hash(p) != p
    requires errors == map[]
    ensures var db' := Submit(db, form, errors, hash, today, None).0;
      db.nextAnnonceId in db'.annonces && db'.annonces[db.nextAnnonceId].mdp != form.psw
  {
    var db' := Submit(db, form, errors, hash, today, None).0;
    assert db'.annonces[db.nextAnnonceId].mdp == hash(form.psw);
  }

  /**
   * When creating the listing fails, the advertiser written just before stays in the
   * table, no listing refers to it, and the listings table is unchanged.
   */
  lemma {:induction false} FailedListingLeavesAdvertiser(db: Db, form: FormData, hash: string -> string,
                                                        errors: map<string, string>, today: string)
    requires WellFormed(db)
    requires errors == map[]
    ensures var (db', outcome) := Submit(db, form, errors, hash, today, Some(CreateListing));
      && outcome == DatabaseError
      && db'.annonces == db.annonces
      && db.nextAnnonceurId in db'.annonceurs && db.nextAnnonceurId !in db.annonceurs
      && forall k :: k in db'.annonces ==> db'.annonces[k].idAnnonceur != Some(db.nextAnnonceurId)
  {
    forall k | k in db.annonces && db.annonces[k].idAnnonceur.Some?
      ensures db.annonces[k].idAnnonceur.value < db.nextAnnonceurId
    {
      assert db.annonces[k].idAnnonceur.value in db.annonceurs;
    }
  }

  /** When attaching fails, both rows exist and the new listing has no advertiser. */
  lemma FailedAssociationLeavesUnattached(db: Db, form: FormData, hash: string -> string,
                                          errors: map<string, string>, today: string)
    requires errors == map[]
    ensures var (db', outcome) := Submit(db, form, errors, hash, today, Some(Associate));
      && outcome == DatabaseError
      && db.nextAnnonceurId in db'.annonceurs
      && db.nextAnnonceId in db'.annonces && db'.annonces[db.nextAnnonceId].idAnnonceur == None
  {
  }

  lemma WithAnnonceurKeepsWellFormed(db: Db, form: FormData)
    requires WellFormed(db)
    ensures WellFormed(WithAnnonceur(db, form))
  {
  }

  lemma WithAnnonceKeepsWellFormed(db: Db, form: FormData, hash: string -> string, today: string)
    requires WellFormed(db)
    ensures WellFormed(WithAnnonce(db, form, hash, today))
  {
  }

  lemma AssociatedKeepsWellFormed(db: Db, advertiser: int, listing: int)
    requires WellFormed(db) && listing in db.annonces && advertiser in db.annonceurs
    ensures WellFormed(Associated(db, advertiser, listing))
  {
  }

  /** Every submission, whatever page it ends on, keeps the tables well formed. */
  lemma {:induction false} SubmitKeepsWellFormed(db: Db, form: FormData, hash: string -> string,
                                                errors: map<string, string>, today: string, failing: Option<Step>)
    requires WellFormed(db)
    ensures WellFormed(Submit(db, form, errors, hash, today, failing).0)
  {
    var db1 := WithAnnonceur(db, form);
    WithAnnonceurKeepsWellFormed(db, form);
    var db2 := WithAnnonce(db1, form, hash, today);
    WithAnnonceKeepsWellFormed(db1, form, hash, today);
    AssociatedKeepsWellFormed(db2, db.nextAnnonceurId, db.nextAnnonceId);
  }
}
