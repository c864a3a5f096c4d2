/** The four record kinds, the document store they live in, the schema
    checks `save()` applies, and the queries the controllers and the seeder
    run against the store. The store is four collections keyed by
    identifier plus the next fresh identifier. */
module Catalog {
  import opened Text
  import opened Listing

  datatype Option<T> = None | Some(value: T)

  /** A point in time; dates are opaque here, only equality matters. */
  type Date = int

  datatype Status = Available | Maintenance | Loaned | Reserved

  /** The string the schema's `enum` lists for each status. */
  function StatusName(st: Status): string {
    match st
    case Available => "Available"
    case Maintenance => "Maintenance"
    case Loaned => "Loaned"
    case Reserved => "Reserved"
  }

  /** The `enum` check of the BookInstance schema on a status string. */
  function ParseStatus(s: string): (r: Option<Status>)
    ensures r.Some? <==> s in {"Available", "Maintenance", "Loaned", "Reserved"}
    ensures r.Some? ==> StatusName(r.value) == s
  {
    if s == "Available" then Some(Available)
    else if s == "Maintenance" then Some(Maintenance)
    else if s == "Loaned" then Some(Loaned)
    else if s == "Reserved" then Some(Reserved)
    else None
  }

  /** Every status is accepted under its own name, and under no other. */
  lemma ParseStatusName(st: Status, s: string)
    ensures ParseStatus(StatusName(st)) == Some(st)
    ensures ParseStatus(s) == Some(st) ==> s == StatusName(st)
  {
  }

  datatype Genre = Genre(name: string)

  datatype Author = Author(firstName: string, familyName: string,
                           dateOfBirth: Option<Date>, dateOfDeath: Option<Date>)

  /** A book refers to exactly one author and to any number of genres. */
  datatype Book = Book(title: string, summary: string, isbn: string, author: Id, genre: seq<Id>)

  datatype BookInstance = BookInstance(book: Id, imprint: string, status: Status, dueBack: Date)

  // The schema validators `save()` runs: `required` rejects an empty
  // string, and the length bounds are those the schemas declare.
  predicate GenreSchemaOk(g: Genre) { 3 <= |g.name| <= 100 }
  predicate AuthorSchemaOk(a: Author) { 1 <= |a.firstName| <= 100 && 1 <= |a.familyName| <= 100 }
  predicate BookSchemaOk(b: Book) { b.title != [] && b.summary != [] && b.isbn != [] }
  predicate InstanceSchemaOk(i: BookInstance) { i.imprint != [] }

  /** What `save()` returned: the store afterwards and the new identifier,
      or no identifier when validation rejected the document. */
  datatype Saved = Saved(db: Db, id: Option<Id>)

  /** The contents of the store. */
  datatype Db = Db(genres: map<Id, Genre>, authors: map<Id, Author>, books: map<Id, Book>,
                   instances: map<Id, BookInstance>, nextId: Id)
  {
    /** Every stored identifier was handed out before `nextId`. */
    ghost predicate Valid() {
      && (forall id :: id in genres ==> id < nextId)
      && (forall id :: id in authors ==> id < nextId)
      && (forall id :: id in books ==> id < nextId)
      && (forall id :: id in instances ==> id < nextId)
    }

    /** `new Genre(g).save()` */
    function SaveGenre(g: Genre): (r: Saved)
      requires Valid()
      ensures r.db.Valid()
      ensures r.id.Some? <==> GenreSchemaOk(g)
      ensures r.id.None? ==> r.db == this
      ensures r.id.Some? ==> r.id.value !in genres && r.db.genres == genres[r.id.value := g]
                             && |r.db.genres| == |genres| + 1
      ensures r.db.authors == authors && r.db.books == books && r.db.instances == instances
    {
      if GenreSchemaOk(g) then Saved(this.(genres := genres[nextId := g], nextId := nextId + 1), Some(nextId))
      else Saved(this, None)
    }

    /** `new Author(a).save()` */
    function SaveAuthor(a: Author): (r: Saved)
      requires Valid()
      ensures r.db.Valid()
      ensures r.id.Some? <==> AuthorSchemaOk(a)
      ensures r.id.None? ==> r.db == this
      ensures r.id.Some? ==> r.id.value !in authors && r.db.authors == authors[r.id.value := a]
                             && |r.db.authors| == |authors| + 1
      ensures r.db.genres == genres && r.db.books == books && r.db.instances == instances
    {
      if AuthorSchemaOk(a) then Saved(this.(authors := authors[nextId := a], nextId := nextId + 1), Some(nextId))
      else Saved(this, None)
    }

    /** `new Book(b).save()` */
    function SaveBook(b: Book): (r: Saved)
      requires Valid()
      ensures r.db.Valid()
      ensures r.id.Some? <==> BookSchemaOk(b)
      ensures r.id.None? ==> r.db == this
      ensures r.id.Some? ==> r.id.value !in books && r.db.books == books[r.id.value := b]
                             && |r.db.books| == |books| + 1
      ensures r.db.genres == genres && r.db.authors == authors && r.db.instances == instances
    {
      if BookSchemaOk(b) then Saved(this.(books := books[nextId := b], nextId := nextId + 1), Some(nextId))
      else Saved(this, None)
    }

    /** `new BookInstance(i).save()` */
    function SaveInstance(i: BookInstance): (r: Saved)
      requires Valid()
      ensures r.db.Valid()
      ensures r.id.Some? <==> InstanceSchemaOk(i)
      ensures r.id.None? ==> r.db == this
      ensures r.id.Some? ==> r.id.value !in instances && r.db.instances == instances[r.id.value := i]
                             && |r.db.instances| == |instances| + 1
      ensures r.db.genres == genres && r.db.authors == authors && r.db.books == books
    {
      if InstanceSchemaOk(i) then Saved(this.(instances := instances[nextId := i], nextId := nextId + 1), Some(nextId))
      else Saved(this, None)
    }

    /** `Genre.findByIdAndDelete(id)`: removes the genre if there is one. */
    function DeleteGenre(id: Id): (r: Db)
      ensures r.genres.Keys == genres.Keys - {id}
      ensures forall k :: k in r.genres ==> r.genres[k] == genres[k]
      ensures r.authors == authors && r.books == books && r.instances == instances && r.nextId == nextId
      ensures Valid() ==> r.Valid()
    {
      this.(genres := genres - {id})
    }

    /** `Author.findByIdAndDelete(id)` */
    function DeleteAuthor(id: Id): (r: Db)
      ensures r.authors.Keys == authors.Keys - {id}
      ensures forall k :: k in r.authors ==> r.authors[k] == authors[k]
      ensures r.genres == genres && r.books == books && r.instances == instances && r.nextId == nextId
      ensures Valid() ==> r.Valid()
    {
      this.(authors := authors - {id})
    }

    /** `Genre.findByIdAndUpdate(id, g)`: replaces the genre if there is one;
        no validator runs on an update. */
    function UpdateGenre(id: Id, g: Genre): (r: Db)
      ensures r.genres.Keys == genres.Keys
      ensures id in genres ==> r.genres[id] == g
      ensures forall k :: k in genres && k != id ==> r.genres[k] == genres[k]
      ensures r.authors == authors && r.books == books && r.instances == instances && r.nextId == nextId
      ensures Valid() ==> r.Valid()
    {
      if id in genres then this.(genres := genres[id := g]) else this
    }

    /** `Author.findByIdAndUpdate(id, a)` */
    function UpdateAuthor(id: Id, a: Author): (r: Db)
      ensures r.authors.Keys == authors.Keys
      ensures id in authors ==> r.authors[id] == a
      ensures forall k :: k in authors && k != id ==> r.authors[k] == authors[k]
      ensures r.genres == genres && r.books == books && r.instances == instances && r.nextId == nextId
      ensures Valid() ==> r.Valid()
    {
      if id in authors then this.(authors := authors[id := a]) else this
    }
  }

  const EmptyDb := Db(map[], map[], map[], map[], 0)

  /** Every reference a stored document holds resolves to a stored document. */
  ghost predicate RefsResolve(db: Db) {
    && (forall b :: b in db.books ==> db.books[b].author in db.authors)
    && (forall b, g :: b in db.books && g in db.books[b].genre ==> g in db.genres)
    && (forall i :: i in db.instances ==> db.instances[i].book in db.books)
  }

  /** A foreign key a book can hold: the `genre` list or the `author` field. */
  datatype Ref = GenreRef(genre: Id) | AuthorRef(author: Id)

  predicate Refers(b: Book, ref: Ref) {
    match ref
    case GenreRef(g) => g in b.genre
    case AuthorRef(a) => b.author == a
  }

  /** The books below `n` that hold `ref`, in ascending identifier order. */
  function DependentsBelow(books: map<Id, Book>, ref: Ref, n: nat): (r: seq<Id>)
    ensures forall i, j :: 0 <= i < j < |r| ==> r[i] < r[j]
    ensures forall id :: id in r <==> id in books && id < n && Refers(books[id], ref)
  {
    if n == 0 then []
    else
      var prefix := DependentsBelow(books, ref, n - 1);
      if n - 1 in books && Refers(books[n - 1], ref) then
        assert forall i :: 0 <= i < |prefix| ==> prefix[i] in prefix;
        prefix + [n - 1]
      else prefix
  }

  /** `Book.find({ genre: id })` / `Book.find({ author: id })`: the books
      that hold `ref`, in natural order. */
  function Dependents(db: Db, ref: Ref): (r: seq<Id>)
    requires db.Valid()
    ensures forall i, j :: 0 <= i < j < |r| ==> r[i] < r[j]
    ensures forall id :: id in r <==> id in db.books && Refers(db.books[id], ref)
  {
    DependentsBelow(db.books, ref, db.nextId)
  }

  /** The first genre at or after `from` and below `n` whose name matches. */
  function FirstNamed(genres: map<Id, Genre>, name: string, from: nat, n: nat): (r: Option<Id>)
    ensures r.Some? ==> from <= r.value < n && r.value in genres
                        && SameIgnoringCase(genres[r.value].name, name)
    ensures forall id :: from <= id < n && id in genres && SameIgnoringCase(genres[id].name, name)
                         ==> r.Some? && r.value <= id
    decreases n - from
  {
    if from >= n then None
    else if from in genres && SameIgnoringCase(genres[from].name, name) then Some(from)
    else FirstNamed(genres, name, from + 1, n)
  }

  /** `Genre.findOne({ name }).collation({ locale: "en", strength: 2 })`:
      the first genre, in natural order, whose name equals `name` up to case. */
  function FindGenreNamed(db: Db, name: string): (r: Option<Id>)
    requires db.Valid()
    ensures r.None? <==> forall id :: id in db.genres ==> !SameIgnoringCase(db.genres[id].name, name)
    ensures r.Some? ==> r.value in db.genres && SameIgnoringCase(db.genres[r.value].name, name)
    ensures r.Some? ==> forall id :: id in db.genres && id < r.value
                                     ==> !SameIgnoringCase(db.genres[id].name, name)
  {
    FirstNamed(db.genres, name, 0, db.nextId)
  }

  /** The genres whose names equal `name` up to case. */
  ghost function GenresNamed(genres: map<Id, Genre>, name: string): set<Id> {
    set id | id in genres && SameIgnoringCase(genres[id].name, name)
  }

  /** The `:id` route parameter. Whether a string is a valid ObjectId is
      decided outside this model: a parameter arrives well-formed (carrying
      the identifier it names) or malformed. */
  datatype IdParam = Wellformed(id: Id) | Malformed

  /** The messages the validation chains attach to a request. */
  datatype FieldError =
    | BadObjectId
    | GenreNameTooShort
    | FirstNameMissing | FirstNameNotAlphanumeric
    | FamilyNameMissing | FamilyNameNotAlphanumeric
    | BadDateOfBirth | BadDateOfDeath

  /** `idValidationChain()`: the ObjectId check on the route parameter. */
  function IdErrors(p: IdParam): (r: seq<FieldError>)
    ensures r == [] <==> p.Wellformed?
  {
    if p.Malformed? then [BadObjectId] else []
  }

  datatype Page = GenreListPage | GenrePage(genre: Id) | AuthorListPage | AuthorPage(author: Id)

  /** What a handler sends back. */
  datatype Response =
    | Redirect(to: Page)                    // res.redirect
    | ShowList(ids: seq<Id>)                // a list page, in the order shown
    | ShowDetail(id: Id, books: seq<Id>)    // a detail page with the record's books
    | ShowDelete(id: Id, books: seq<Id>)    // the delete page listing the dependent books
    | ShowForm(errors: seq<FieldError>)     // the form again, with the validation messages
    | InvalidId                             // next(errors.array()) for a malformed id
    | NotFound                              // next(err) with status 404
    | ServerError                           // a rejected store call or a thrown error passed to next(err)

  /** A handler's response together with the store it leaves. */
  datatype Outcome = Outcome(response: Response, db: Db)

  /** The store: four collections and the next fresh identifier. */
  class Store {
    var genres: map<Id, Genre>
    var authors: map<Id, Author>
    var books: map<Id, Book>
    var instances: map<Id, BookInstance>
    var nextId: Id

    function State(): Db
      reads this
    {
      Db(genres, authors, books, instances, nextId)
    }

    ghost predicate Valid()
      reads this
    {
      State().Valid()
    }

    constructor ()
      ensures Valid() && State() == EmptyDb
    {
      genres, authors, books, instances, nextId := map[], map[], map[], map[], 0;
    }

    method SaveGenre(g: Genre) returns (id: Option<Id>)
      requires Valid()
      modifies this
      ensures Valid() && Saved(State(), id) == old(State()).SaveGenre(g)
    {
      id := None;
      if GenreSchemaOk(g) {
        id := Some(nextId);
        genres := genres[nextId := g];
        nextId := nextId + 1;
      }
    }

    method SaveAuthor(a: Author) returns (id: Option<Id>)
      requires Valid()
      modifies this
      ensures Valid() && Saved(State(), id) == old(State()).SaveAuthor(a)
    {
      id := None;
      if AuthorSchemaOk(a) {
        id := Some(nextId);
        authors := authors[nextId := a];
        nextId := nextId + 1;
      }
    }

    method SaveBook(b: Book) returns (id: Option<Id>)
      requires Valid()
      modifies this
      ensures Valid() && Saved(State(), id) == old(State()).SaveBook(b)
    {
      id := None;
      if BookSchemaOk(b) {
        id := Some(nextId);
        books := books[nextId := b];
        nextId := nextId + 1;
      }
    }

    method SaveInstance(i: BookInstance) returns (id: Option<Id>)
      requires Valid()
      modifies this
      ensures Valid() && Saved(State(), id) == old(State()).SaveInstance(i)
    {
      id := None;
      if InstanceSchemaOk(i) {
        id := Some(nextId);
        instances := instances[nextId := i];
        nextId := nextId + 1;
      }
    }

    method DeleteGenre(id: Id)
      requires Valid()
      modifies this
      ensures Valid() && State() == old(State()).DeleteGenre(id)
    {
      genres := genres - {id};
    }

    method DeleteAuthor(id: Id)
      requires Valid()
      modifies this
      ensures Valid() && State() == old(State()).DeleteAuthor(id)
    {
      authors := authors - {id};
    }

    method UpdateGenre(id: Id, g: Genre) returns (found: bool)
      requires Valid()
      modifies this
      ensures Valid() && State() == old(State()).UpdateGenre(id, g)
      ensures found <==> id in old(genres)
    {
      found := id in genres;
      if found {
        genres := genres[id := g];
      }
    }

    method UpdateAuthor(id: Id, a: Author) returns (found: bool)
      requires Valid()
      modifies this
      ensures Valid() && State() == old(State()).UpdateAuthor(id, a)
      ensures found <==> id in old(authors)
    {
      found := id in authors;
      if found {
        authors := authors[id := a];
      }
    }
  }
}
