/** The author handlers, in the same shape as the genre handlers: a pure
    function per page or write, and a method per write that runs against a
    live `Store` and is proved to agree with it. */
module AuthorController {
  import opened Text
  import opened Listing
  import opened Catalog

  /** A date field of the form: empty (skipped by `optional({ values:
      "falsy" })`), an ISO 8601 string naming a date, or anything else. */
  datatype DateInput = Blank | Iso(date: Date) | NotIso

  /** The fields of the author form as posted. */
  datatype AuthorForm = AuthorForm(firstName: string, familyName: string,
                                   dateOfBirth: DateInput, dateOfDeath: DateInput)

  /** The sanitised author and the messages `authorValidationChain()` attached. */
  datatype AuthorCheck = AuthorCheck(author: Author, errors: seq<FieldError>)

  /** The date a field holds after `toDate()`; a blank field is stored as no date. */
  function DateValue(d: DateInput): (r: Option<Date>)
    ensures r.Some? <==> d.Iso?
    ensures d.Iso? ==> r.value == d.date
  {
    if d.Iso? then Some(d.date) else None
  }

  /** The messages of `authorValidationChain()` in the order its checks
      run, each present when its check failed. Every validator of a field
      runs, so an empty name draws both of its messages. */
  function Messages(firstMissing: bool, firstNotAlphanumeric: bool,
                    familyMissing: bool, familyNotAlphanumeric: bool,
                    badBirth: bool, badDeath: bool): (r: seq<FieldError>)
    ensures r == [] <==> !(firstMissing || firstNotAlphanumeric || familyMissing
                           || familyNotAlphanumeric || badBirth || badDeath)
    ensures FirstNameMissing in r <==> firstMissing
    ensures FirstNameNotAlphanumeric in r <==> firstNotAlphanumeric
    ensures FamilyNameMissing in r <==> familyMissing
    ensures FamilyNameNotAlphanumeric in r <==> familyNotAlphanumeric
    ensures BadDateOfBirth in r <==> badBirth
    ensures BadDateOfDeath in r <==> badDeath
  {
    (if firstMissing then [FirstNameMissing] else [])
    + (if firstNotAlphanumeric then [FirstNameNotAlphanumeric] else [])
    + (if familyMissing then [FamilyNameMissing] else [])
    + (if familyNotAlphanumeric then [FamilyNameNotAlphanumeric] else [])
    + (if badBirth then [BadDateOfBirth] else [])
    + (if badDeath then [BadDateOfDeath] else [])
  }

  /** `authorValidationChain()` followed by `new Author(req.body)`. */
  function Validate(f: AuthorForm): (r: AuthorCheck)
    ensures r.errors == [] <==> IsAlphanumeric(Trim(f.firstName)) && IsAlphanumeric(Trim(f.familyName))
                                && !f.dateOfBirth.NotIso? && !f.dateOfDeath.NotIso?
    ensures r.errors == [] ==> r.author == Author(Trim(f.firstName), Trim(f.familyName),
                                                  DateValue(f.dateOfBirth), DateValue(f.dateOfDeath))
  {
    var first := Trim(f.firstName);
    var family := Trim(f.familyName);
    EscapeFacts(first);
    EscapeFacts(family);
    var errors := Messages(|first| < 1, !IsAlphanumeric(Escape(first)),
                           |family| < 1, !IsAlphanumeric(Escape(family)),
                           f.dateOfBirth.NotIso?, f.dateOfDeath.NotIso?);
    AuthorCheck(Author(Escape(first), Escape(family), DateValue(f.dateOfBirth), DateValue(f.dateOfDeath)),
                errors)
  }

  /** Each message is attached exactly when its field fails its check;
      since `escape()` keeps a string alphanumeric exactly when it was, the
      alphanumeric check after escaping judges the trimmed name. */
  lemma ValidateMessages(f: AuthorForm)
    ensures var errors := Validate(f).errors;
            && (FirstNameMissing in errors <==> Trim(f.firstName) == [])
            && (FirstNameNotAlphanumeric in errors <==> !IsAlphanumeric(Trim(f.firstName)))
            && (FamilyNameMissing in errors <==> Trim(f.familyName) == [])
            && (FamilyNameNotAlphanumeric in errors <==> !IsAlphanumeric(Trim(f.familyName)))
            && (BadDateOfBirth in errors <==> f.dateOfBirth.NotIso?)
            && (BadDateOfDeath in errors <==> f.dateOfDeath.NotIso?)
  {
    EscapeFacts(Trim(f.firstName));
    EscapeFacts(Trim(f.familyName));
  }

  function FamilyNameKey(authors: map<Id, Author>): (key: map<Id, string>)
    ensures key.Keys == authors.Keys
  {
    map id | id in authors :: authors[id].familyName
  }

  /** `author_list`: every stored author exactly once, ascending by family name. */
  function List(db: Db): (r: Response)
    requires db.Valid()
    ensures r.ShowList?
    ensures forall id :: multiset(r.ids)[id] == if id in db.authors then 1 else 0
    ensures forall i, j :: 0 <= i < j < |r.ids| ==>
              r.ids[i] in db.authors && r.ids[j] in db.authors
              && LexLe(db.authors[r.ids[i]].familyName, db.authors[r.ids[j]].familyName)
  {
    var ids := Ids(db.authors, db.nextId);
    var key := FamilyNameKey(db.authors);
    var sorted := Sort(ids, key);
    SortedListing(key, ids, sorted);
    ShowList(sorted)
  }

  /** `author_detail`: a malformed id is turned away before the store is
      read; a missing author is a 404; otherwise the author and their books. */
  function Detail(db: Db, p: IdParam): (r: Response)
    requires db.Valid()
    ensures p.Malformed? <==> r == InvalidId
    ensures r == NotFound <==> p.Wellformed? && p.id !in db.authors
    ensures p.Wellformed? && p.id in db.authors ==>
              r.ShowDetail? && r.id == p.id
              && forall b :: b in r.books <==> b in db.books && db.books[b].author == p.id
  {
    if p.Malformed? then InvalidId
    else if p.id !in db.authors then NotFound
    else ShowDetail(p.id, Dependents(db, AuthorRef(p.id)))
  }

  /** `author_delete_get`: the confirmation page with the books that would
      block the delete; a missing author sends the user back to the list. */
  function DeleteGet(db: Db, p: IdParam): (r: Response)
    requires db.Valid()
    ensures p.Malformed? <==> r == InvalidId
    ensures r == Redirect(AuthorListPage) <==> p.Wellformed? && p.id !in db.authors
    ensures p.Wellformed? && p.id in db.authors ==>
              r.ShowDelete? && r.id == p.id
              && forall b :: b in r.books <==> b in db.books && db.books[b].author == p.id
  {
    if p.Malformed? then InvalidId
    else if p.id !in db.authors then Redirect(AuthorListPage)
    else ShowDelete(p.id, Dependents(db, AuthorRef(p.id)))
  }

  /** `author_create_post`: no lookup of existing authors precedes the save. */
  function Create(db: Db, f: AuthorForm): (o: Outcome)
    requires db.Valid()
    ensures o.db.Valid()
    ensures o.db.genres == db.genres && o.db.books == db.books && o.db.instances == db.instances
    // any validation message: the form again, nothing saved
    ensures o.response.ShowForm? <==> Validate(f).errors != []
    ensures o.response.ShowForm? ==> o.db == db && o.response.errors == Validate(f).errors
    // a valid form adds exactly one author, unless the schema rejects a name
    ensures Validate(f).errors == [] ==>
              var a := Author(Trim(f.firstName), Trim(f.familyName),
                              DateValue(f.dateOfBirth), DateValue(f.dateOfDeath));
              if |a.firstName| <= 100 && |a.familyName| <= 100 then
                && o.response.Redirect? && o.response.to.AuthorPage?
                && o.response.to.author !in db.authors
                && o.db.authors == db.authors[o.response.to.author := a]
                && |o.db.authors| == |db.authors| + 1
              else o == Outcome(ServerError, db)
  {
    var check := Validate(f);
    if check.errors != [] then Outcome(ShowForm(check.errors), db)
    else
      var saved := db.SaveAuthor(check.author);
      if saved.id.Some? then Outcome(Redirect(AuthorPage(saved.id.value)), saved.db)
      else Outcome(ServerError, db)
  }

  /** `author_delete_post`. The dependents are looked up for the route
      parameter, but the author removed is the one the form body names. */
  function Delete(db: Db, p: IdParam, body: IdParam): (o: Outcome)
    requires db.Valid()
    ensures o.db.Valid()
    ensures p.Malformed? ==> o == Outcome(InvalidId, db)
    // some book is by the author: nothing removed, the blocking books shown
    ensures p.Wellformed? && (exists b :: b in db.books && db.books[b].author == p.id) ==>
              o.db == db && o.response.ShowDelete? && o.response.id == p.id
              && forall b :: b in o.response.books <==> b in db.books && db.books[b].author == p.id
    // no book is by the author: only the author named in the body is removed
    ensures p.Wellformed? && (forall b :: b in db.books ==> db.books[b].author != p.id) ==>
              if body.Malformed? then o == Outcome(ServerError, db)
              else o.response == Redirect(AuthorListPage)
                   && o.db.authors == db.authors - {body.id}
                   && o.db == db.(authors := o.db.authors)
  {
    if p.Malformed? then Outcome(InvalidId, db)
    else
      var books := Dependents(db, AuthorRef(p.id));
      if |books| > 0 then
        assert books[0] in books;
        Outcome(ShowDelete(p.id, books), db)
      else if body.Malformed? then Outcome(ServerError, db)
      else Outcome(Redirect(AuthorListPage), db.DeleteAuthor(body.id))
  }

  /** `author_update_post`: the record under the route's identifier is
      replaced by the form's author; no schema validator runs on an update,
      and a missing record makes the handler fail. */
  function Update(db: Db, p: IdParam, f: AuthorForm): (o: Outcome)
    requires db.Valid()
    ensures o.db.Valid()
    ensures o.db.genres == db.genres && o.db.books == db.books && o.db.instances == db.instances
    ensures o.db.authors.Keys == db.authors.Keys
    // any message, for the id or for the form: the form again, nothing saved
    ensures o.response.ShowForm? <==> p.Malformed? || Validate(f).errors != []
    ensures o.response.ShowForm? ==> o.db == db && o.response.errors == IdErrors(p) + Validate(f).errors
    ensures p.Wellformed? && Validate(f).errors == [] ==>
              if p.id in db.authors then
                && o.response == Redirect(AuthorPage(p.id))
                && o.db.authors == db.authors[p.id := Author(Trim(f.firstName), Trim(f.familyName),
                                                             DateValue(f.dateOfBirth), DateValue(f.dateOfDeath))]
              else o == Outcome(ServerError, db)
  {
    var check := Validate(f);
    if p.Malformed? || check.errors != [] then Outcome(ShowForm(IdErrors(p) + check.errors), db)
    else if p.id !in db.authors then Outcome(ServerError, db)
    else Outcome(Redirect(AuthorPage(p.id)), db.UpdateAuthor(p.id, check.author))
  }

  method CreatePost(store: Store, f: AuthorForm) returns (response: Response)
    requires store.Valid()
    modifies store
    ensures store.Valid() && Outcome(response, store.State()) == Create(old(store.State()), f)
  {
    var check := Validate(f);
    if check.errors != [] {
      return ShowForm(check.errors);
    }
    var id := store.SaveAuthor(check.author);
    if id.None? {
      return ServerError;
    }
    response := Redirect(AuthorPage(id.value));
  }

  method DeletePost(store: Store, p: IdParam, body: IdParam) returns (response: Response)
    requires store.Valid()
    modifies store
    ensures store.Valid() && Outcome(response, store.State()) == Delete(old(store.State()), p, body)
  {
    if p.Malformed? {
      return InvalidId;
    }
    var books := Dependents(store.State(), AuthorRef(p.id));
    if |books| > 0 {
      return ShowDelete(p.id, books);
    }
    if body.Malformed? {
      return ServerError;
    }
    store.DeleteAuthor(body.id);
    response := Redirect(AuthorListPage);
  }

  method UpdatePost(store: Store, p: IdParam, f: AuthorForm) returns (response: Response)
    requires store.Valid()
    modifies store
    ensures store.Valid() && Outcome(response, store.State()) == Update(old(store.State()), p, f)
  {
    var check := Validate(f);
    if p.Malformed? || check.errors != [] {
      return ShowForm(IdErrors(p) + check.errors);
    }
    var found := store.UpdateAuthor(p.id, check.author);
    if !found {
      return ServerError;
    }
    response := Redirect(AuthorPage(p.id));
  }

  /** Posting the same valid form twice stores two authors with identical
      fields under two identifiers. */
  lemma CreateTwiceStoresTwice(db: Db, f: AuthorForm)
    requires db.Valid() && Validate(f).errors == []
    requires |Trim(f.firstName)| <= 100 && |Trim(f.familyName)| <= 100
    ensures var o1 := Create(db, f);
            var o2 := Create(o1.db, f);
            && o1.response.Redirect? && o2.response.Redirect?
            && o1.response.to != o2.response.to
            && |o2.db.authors| == |db.authors| + 2
            && o2.db.authors[o1.response.to.author] == o2.db.authors[o2.response.to.author]
  {
    var o1 := Create(db, f);
    var o2 := Create(o1.db, f);
    assert o1.response.to.author in o1.db.authors;
  }

  /** With the same id in the route and in the body, a delete never leaves
      a book pointing at a missing author. */
  lemma DeletePreservesRefs(db: Db, id: Id)
    requires db.Valid() && RefsResolve(db)
    ensures RefsResolve(Delete(db, Wellformed(id), Wellformed(id)).db)
  {
    var o := Delete(db, Wellformed(id), Wellformed(id));
    if forall b :: b in db.books ==> db.books[b].author != id {
      forall b | b in o.db.books ensures o.db.books[b].author in o.db.authors {
        assert db.books[b].author in db.authors;
      }
    }
  }

  /** Updates keep every reference resolving: no identifier comes or goes. */
  lemma UpdatePreservesRefs(db: Db, p: IdParam, f: AuthorForm)
    requires db.Valid() && RefsResolve(db)
    ensures RefsResolve(Update(db, p, f).db)
  {
    var o := Update(db, p, f);
    forall b | b in o.db.books ensures o.db.books[b].author in o.db.authors {
      assert db.books[b].author in db.authors;
    }
  }
}
