/** The genre handlers. Each read-only page is a function of the store;
    each handler that writes is a function from the store before to its
    response and the store after, and a method that runs the same steps
    against a live `Store` and is proved to agree with it. */
module GenreController {
  import opened Text
  import opened Listing
  import opened Catalog

  /** The `name` field after `genreValidationChain()`: trimmed, checked to
      be at least 3 characters long, then escaped. */
  datatype NameCheck = NameCheck(name: string, errors: seq<FieldError>)

  function ValidateName(raw: string): (r: NameCheck)
    ensures r.name == Escape(Trim(raw))
    ensures r.errors == [] <==> |Trim(raw)| >= 3
    ensures r.errors != [] ==> r.errors == [GenreNameTooShort]
    ensures r.errors == [] ==> |r.name| >= 3
  {
    var t := Trim(raw);
    EscapeFacts(t);
    NameCheck(Escape(t), if |t| < 3 then [GenreNameTooShort] else [])
  }

  function NameKey(genres: map<Id, Genre>): (key: map<Id, string>)
    ensures key.Keys == genres.Keys
  {
    map id | id in genres :: genres[id].name
  }

  /** `genre_list`: every stored genre exactly once, ascending by name. */
  function List(db: Db): (r: Response)
    requires db.Valid()
    ensures r.ShowList?
    ensures forall id :: multiset(r.ids)[id] == if id in db.genres then 1 else 0
    ensures forall i, j :: 0 <= i < j < |r.ids| ==>
              r.ids[i] in db.genres && r.ids[j] in db.genres
              && LexLe(db.genres[r.ids[i]].name, db.genres[r.ids[j]].name)
  {
    var ids := Ids(db.genres, db.nextId);
    var key := NameKey(db.genres);
    var sorted := Sort(ids, key);
    SortedListing(key, ids, sorted);
    ShowList(sorted)
  }

  /** `genre_detail`: a malformed id is turned away before the store is
      read; a missing genre is a 404; otherwise the genre and the books
      that list it. */
  function Detail(db: Db, p: IdParam): (r: Response)
    requires db.Valid()
    ensures p.Malformed? <==> r == InvalidId
    ensures r == NotFound <==> p.Wellformed? && p.id !in db.genres
    ensures p.Wellformed? && p.id in db.genres ==>
              r.ShowDetail? && r.id == p.id
              && forall b :: b in r.books <==> b in db.books && p.id in db.books[b].genre
  {
    if p.Malformed? then InvalidId
    else if p.id !in db.genres then NotFound
    else ShowDetail(p.id, Dependents(db, GenreRef(p.id)))
  }

  /** `genre_delete_get`: the confirmation page with the books that would
      block the delete; a missing genre sends the user back to the list. */
  function DeleteGet(db: Db, p: IdParam): (r: Response)
    requires db.Valid()
    ensures p.Malformed? <==> r == InvalidId
    ensures r == Redirect(GenreListPage) <==> p.Wellformed? && p.id !in db.genres
    ensures p.Wellformed? && p.id in db.genres ==>
              r.ShowDelete? && r.id == p.id
              && forall b :: b in r.books <==> b in db.books && p.id in db.books[b].genre
  {
    if p.Malformed? then InvalidId
    else if p.id !in db.genres then Redirect(GenreListPage)
    else ShowDelete(p.id, Dependents(db, GenreRef(p.id)))
  }

  /** `genre_create_post` */
  function Create(db: Db, raw: string): (o: Outcome)
    requires db.Valid()
    ensures o.db.Valid()
    ensures o.db.authors == db.authors && o.db.books == db.books && o.db.instances == db.instances
    // a name under 3 characters once trimmed: the form again, nothing saved
    ensures o.response.ShowForm? <==> |Trim(raw)| < 3
    ensures o.response.ShowForm? ==> o.db == db && o.response.errors == [GenreNameTooShort]
    // a genre of the same name up to case exists: redirect to it, nothing saved
    ensures |Trim(raw)| >= 3 && GenresNamed(db.genres, Escape(Trim(raw))) != {} ==>
              o.db == db && o.response.Redirect? && o.response.to.GenrePage?
              && o.response.to.genre in GenresNamed(db.genres, Escape(Trim(raw)))
    // otherwise exactly one genre is added, unless the schema rejects the name
    ensures |Trim(raw)| >= 3 && GenresNamed(db.genres, Escape(Trim(raw))) == {} ==>
              if |Escape(Trim(raw))| <= 100 then
                && o.response.Redirect? && o.response.to.GenrePage?
                && o.response.to.genre !in db.genres
                && o.db.genres == db.genres[o.response.to.genre := Genre(Escape(Trim(raw)))]
                && |o.db.genres| == |db.genres| + 1
              else o == Outcome(ServerError, db)
  {
    var check := ValidateName(raw);
    if check.errors != [] then Outcome(ShowForm(check.errors), db)
    else
      match FindGenreNamed(db, check.name)
      case Some(id) =>
        assert id in GenresNamed(db.genres, check.name);
        Outcome(Redirect(GenrePage(id)), db)
      case None =>
        var saved := db.SaveGenre(Genre(check.name));
        if saved.id.Some? then Outcome(Redirect(GenrePage(saved.id.value)), saved.db)
        else Outcome(ServerError, db)
  }

  /** `genre_delete_post`. The dependents are looked up for the route
      parameter, but the genre removed is the one the form body names. */
  function Delete(db: Db, p: IdParam, body: IdParam): (o: Outcome)
    requires db.Valid()
    ensures o.db.Valid()
    ensures p.Malformed? ==> o == Outcome(InvalidId, db)
    // some book lists the genre: nothing removed, the blocking books shown
    ensures p.Wellformed? && (exists b :: b in db.books && p.id in db.books[b].genre) ==>
              o.db == db && o.response.ShowDelete? && o.response.id == p.id
              && forall b :: b in o.response.books <==> b in db.books && p.id in db.books[b].genre
    // no book lists it: only the genre named in the body is removed
    ensures p.Wellformed? && (forall b :: b in db.books ==> p.id !in db.books[b].genre) ==>
              if body.Malformed? then o == Outcome(ServerError, db)
              else o.response == Redirect(GenreListPage)
                   && o.db.genres == db.genres - {body.id}
                   && o.db == db.(genres := o.db.genres)
  {
    if p.Malformed? then Outcome(InvalidId, db)
    else
      var books := Dependents(db, GenreRef(p.id));
      if |books| > 0 then
        assert books[0] in books;
        Outcome(ShowDelete(p.id, books), db)
      else if body.Malformed? then Outcome(ServerError, db)
      else Outcome(Redirect(GenreListPage), db.DeleteGenre(body.id))
  }

  /** `genre_update_post`: the name is replaced under the same identifier,
      and no other genre's name is consulted. */
  function Update(db: Db, p: IdParam, raw: string): (o: Outcome)
    requires db.Valid()
    ensures o.db.Valid()
    ensures p.Malformed? || |Trim(raw)| < 3 ==>
              o.db == db && o.response == ShowForm(IdErrors(p) + ValidateName(raw).errors)
    ensures p.Wellformed? && |Trim(raw)| >= 3 ==>
              && o.response == Redirect(GenrePage(p.id))
              && o.db.genres.Keys == db.genres.Keys
              && (p.id in db.genres ==> o.db == db.(genres := db.genres[p.id := Genre(Escape(Trim(raw)))]))
              && (p.id !in db.genres ==> o.db == db)
  {
    var check := ValidateName(raw);
    var errors := IdErrors(p) + check.errors;
    assert errors == [] <==> IdErrors(p) == [] && check.errors == [];
    if errors != [] then Outcome(ShowForm(errors), db)
    else Outcome(Redirect(GenrePage(p.id)), db.UpdateGenre(p.id, Genre(check.name)))
  }

  method CreatePost(store: Store, raw: string) returns (response: Response)
    requires store.Valid()
    modifies store
    ensures store.Valid() && Outcome(response, store.State()) == Create(old(store.State()), raw)
  {
    var check := ValidateName(raw);
    if check.errors != [] {
      return ShowForm(check.errors);
    }
    var existing := FindGenreNamed(store.State(), check.name);
    if existing.Some? {
      return Redirect(GenrePage(existing.value));
    }
    var id := store.SaveGenre(Genre(check.name));
    if id.None? {
      return ServerError;
    }
    response := Redirect(GenrePage(id.value));
  }

  method DeletePost(store: Store, p: IdParam, body: IdParam) returns (response: Response)
    requires store.Valid()
    modifies store
    ensures store.Valid() && Outcome(response, store.State()) == Delete(old(store.State()), p, body)
  {
    if p.Malformed? {
      return InvalidId;
    }
    var books := Dependents(store.State(), GenreRef(p.id));
    if |books| > 0 {
      return ShowDelete(p.id, books);
    }
    if body.Malformed? {
      return ServerError;
    }
    store.DeleteGenre(body.id);
    response := Redirect(GenreListPage);
  }

  method UpdatePost(store: Store, p: IdParam, raw: string) returns (response: Response)
    requires store.Valid()
    modifies store
    ensures store.Valid() && Outcome(response, store.State()) == Update(old(store.State()), p, raw)
  {
    var check := ValidateName(raw);
    var errors := IdErrors(p) + check.errors;
    if errors != [] {
      return ShowForm(errors);
    }
    var _ := store.UpdateGenre(p.id, Genre(check.name));
    response := Redirect(GenrePage(p.id));
  }

  /** Creating a genre and then the same name in another case ("Fantasy",
      then "fantasy") stores it once: the second request saves nothing and
      redirects to the genre the first one created. */
  lemma CreateTwiceStoresOnce(db: Db, first: string, second: string)
    requires db.Valid()
    requires |Trim(first)| >= 3 && |Escape(Trim(first))| <= 100
    requires SameIgnoringCase(Trim(first), Trim(second))
    requires GenresNamed(db.genres, Escape(Trim(first))) == {}
    ensures var o1 := Create(db, first);
            var o2 := Create(o1.db, second);
            && o2 == o1
            && |o2.db.genres| == |db.genres| + 1
            && GenresNamed(o2.db.genres, Escape(Trim(second))) == {o1.response.to.genre}
  {
    var n1, n2 := Escape(Trim(first)), Escape(Trim(second));
    EscapeKeepsCaseMatch(Trim(first), Trim(second));
    var o1 := Create(db, first);
    var id := o1.response.to.genre;
    assert |Trim(second)| == |Fold(Trim(second))| == |Fold(Trim(first))| == |Trim(first)|;
    assert GenresNamed(o1.db.genres, n2) == {id} by {
      forall g | g in o1.db.genres && SameIgnoringCase(o1.db.genres[g].name, n2) ensures g == id {
        if g != id {
          assert g in db.genres && SameIgnoringCase(db.genres[g].name, n1);
        }
      }
    }
  }

  /** With the same id in the route and in the body, a delete never leaves
      a book pointing at a missing genre. */
  lemma DeletePreservesRefs(db: Db, id: Id)
    requires db.Valid() && RefsResolve(db)
    ensures RefsResolve(Delete(db, Wellformed(id), Wellformed(id)).db)
  {
    var o := Delete(db, Wellformed(id), Wellformed(id));
    if forall b :: b in db.books ==> id !in db.books[b].genre {
      forall b, g | b in o.db.books && g in o.db.books[b].genre ensures g in o.db.genres {
        assert g in db.genres && g != id;
      }
    }
  }

  /** With different ids in the route and in the body, the guard checks one
      genre and removes another: here genre 1 is removed while book 3
      still lists it. */
  lemma DeleteMismatchedIdsOrphansBook()
    ensures var db := Db(map[0 := Genre("Poetry"), 1 := Genre("Fantasy")],
                         map[2 := Author("Ann", "Lee", None, None)],
                         map[3 := Book("T", "S", "1", 2, [1])], map[], 4);
            && db.Valid() && RefsResolve(db)
            && !RefsResolve(Delete(db, Wellformed(0), Wellformed(1)).db)
  {
    var db := Db(map[0 := Genre("Poetry"), 1 := Genre("Fantasy")],
                 map[2 := Author("Ann", "Lee", None, None)],
                 map[3 := Book("T", "S", "1", 2, [1])], map[], 4);
    assert forall b :: b in db.books ==> 0 !in db.books[b].genre;
    var o := Delete(db, Wellformed(0), Wellformed(1));
    assert 1 in o.db.books[3].genre && 1 !in o.db.genres;
  }

  /** Update performs no duplicate check: renaming a genre to the name of
      another genre up to case leaves two genres with that name. */
  lemma UpdateCanDuplicateName(db: Db, id: Id, other: Id, raw: string)
    requires db.Valid() && id in db.genres && other in db.genres && other != id
    requires |Trim(raw)| >= 3 && SameIgnoringCase(db.genres[other].name, Escape(Trim(raw)))
    ensures var o := Update(db, Wellformed(id), raw);
            && o.response == Redirect(GenrePage(id))
            && {id, other} <= GenresNamed(o.db.genres, Escape(Trim(raw)))
  {
    var name := Escape(Trim(raw));
    var o := Update(db, Wellformed(id), raw);
    assert o.db.genres[id].name == name && o.db.genres[other] == db.genres[other];
  }
}
