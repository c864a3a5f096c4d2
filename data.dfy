/** The seed data file: four arrays of plain entries that refer to one
    another by array index, and the checks a seed file must pass for every
    one of its documents to be saved. */
module Dataset {
  import opened Text
  import opened Catalog

  /** A field of an entry. The file writes `false` for an unavailable field. */
  datatype Field<T> = NotGiven | Given(value: T)

  datatype GenreEntry = GenreEntry(name: string)

  /** The author entries name their dates `date_of_birth` / `date_of_death`. */
  datatype AuthorEntry = AuthorEntry(firstName: string, familyName: string,
                                     dateOfBirth: Field<Date>, dateOfDeath: Field<Date>)

  /** `author` indexes the author array; `genre` lists indexes of the genre array. */
  datatype BookEntry = BookEntry(title: string, summary: string, author: nat, isbn: string,
                                 genre: Field<seq<nat>>)

  /** `book` indexes the book array. */
  datatype InstanceEntry = InstanceEntry(book: nat, imprint: string, dueBack: Field<Date>,
                                         status: Field<string>)

  datatype Data = Data(genres: seq<GenreEntry>, authors: seq<AuthorEntry>,
                       books: seq<BookEntry>, instances: seq<InstanceEntry>)

  const Genres: seq<GenreEntry> := [GenreEntry("genre-a"), GenreEntry("genre-b"), GenreEntry("genre-c")]

  const Authors: seq<AuthorEntry> := [AuthorEntry("Fake", "Author", NotGiven, NotGiven)]

  const Books: seq<BookEntry> := [
    BookEntry("Book-1", "summary 1", 0, "1", Given([0, 1, 2])),
    BookEntry("Book-2", "summary 2", 0, "2", NotGiven)
  ]

  const Instances: seq<InstanceEntry> := [InstanceEntry(1, "XYZ", NotGiven, Given("Maintenance"))]

  const Fixture := Data(Genres, Authors, Books, Instances)

  /** Every index an entry holds points into the array it refers to. */
  predicate IndexesInRange(d: Data) {
    && (forall b :: 0 <= b < |d.books| ==> d.books[b].author < |d.authors|)
    && (forall b, k :: 0 <= b < |d.books| && d.books[b].genre.Given? && k in d.books[b].genre.value
                       ==> k < |d.genres|)
    && (forall i :: 0 <= i < |d.instances| ==> d.instances[i].book < |d.books|)
  }

  /** Genre names fit the schema's length bounds and no two of them are
      equal up to case. */
  predicate GenreNamesOk(d: Data) {
    && (forall g :: 0 <= g < |d.genres| ==> GenreSchemaOk(Genre(d.genres[g].name)))
    && (forall g, h :: 0 <= g < h < |d.genres| ==> !SameIgnoringCase(d.genres[g].name, d.genres[h].name))
  }

  /** The string fields the schemas require are present and within bounds,
      and every given status is one the schema's `enum` allows. */
  predicate FieldsOk(d: Data) {
    && (forall a :: 0 <= a < |d.authors| ==>
          1 <= |d.authors[a].firstName| <= 100 && 1 <= |d.authors[a].familyName| <= 100)
    && (forall b :: 0 <= b < |d.books| ==>
          d.books[b].title != [] && d.books[b].summary != [] && d.books[b].isbn != [])
    && (forall i :: 0 <= i < |d.instances| ==>
          d.instances[i].imprint != []
          && (d.instances[i].status.Given? ==> ParseStatus(d.instances[i].status.value).Some?))
  }

  /** The seed file satisfies every check; the unavailable fields it marks
      are the second book's genre list, the instance's due date and both of
      the author's dates. */
  lemma FixtureOk()
    ensures IndexesInRange(Fixture) && GenreNamesOk(Fixture) && FieldsOk(Fixture)
    ensures Books[1].genre == NotGiven && Instances[0].dueBack == NotGiven
    ensures Authors[0].dateOfBirth == NotGiven && Authors[0].dateOfDeath == NotGiven
  {
    assert Fold("genre-a")[6] != Fold("genre-b")[6];
    assert Fold("genre-a")[6] != Fold("genre-c")[6];
    assert Fold("genre-b")[6] != Fold("genre-c")[6];
  }
}
