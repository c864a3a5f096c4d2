/** What the seeder stores for each entry of a data file it seeds
    completely: every author, book and book instance slot ends up holding
    a document whose fields are the entry's own, and whose references are
    the documents in the slots the entry's indexes name. */
module SeedContents {
  import opened Listing
  import opened Catalog
  import opened Dataset
  import opened LooseEquality
  import opened Populate

  /** The author stored for entry `e`: its names and no dates. */
  predicate AuthorStored(a: Author, e: AuthorEntry) {
    a == Author(e.firstName, e.familyName, None, None)
  }

  /** The book stored for entry `e`: its strings, the author in the
      entry's author slot, and the genre list `bookCreate` builds. */
  predicate BookStored(b: Book, e: BookEntry, authors: seq<Slot<AuthorEntry>>, genres: seq<Slot<GenreEntry>>) {
    && b.title == e.title && b.summary == e.summary && b.isbn == e.isbn
    && Resolve(authors, e.author) == Some(b.author)
    && BookGenres(genres, e.genre) == Some(b.genre)
  }

  /** The instance stored for entry `e`: the book in the entry's book slot,
      its imprint, the status `bookInstanceCreate` picks, and the given due
      date or else the time of the save. */
  predicate InstanceStored(x: BookInstance, e: InstanceEntry, books: seq<Slot<BookEntry>>, now: Date) {
    && Resolve(books, e.book) == Some(x.book)
    && x.imprint == e.imprint
    && InstanceStatus(e.status) == Some(x.status)
    && x.dueBack == (if e.dueBack.Given? then e.dueBack.value else now)
  }

  /** Slots `lo` onwards hold documents stored for their entries. */
  predicate AuthorsStored(slots: seq<Slot<AuthorEntry>>, stored: map<Id, Author>, es: seq<AuthorEntry>, lo: nat) {
    |slots| == |es| &&
    forall j :: lo <= j < |es| ==>
      slots[j].Doc? && slots[j].id in stored && AuthorStored(stored[slots[j].id], es[j])
  }

  predicate BooksStored(slots: seq<Slot<BookEntry>>, stored: map<Id, Book>, es: seq<BookEntry>, lo: nat,
                        authors: seq<Slot<AuthorEntry>>, genres: seq<Slot<GenreEntry>>) {
    |slots| == |es| &&
    forall j :: lo <= j < |es| ==>
      slots[j].Doc? && slots[j].id in stored && BookStored(stored[slots[j].id], es[j], authors, genres)
  }

  predicate InstancesStored(slots: seq<Slot<InstanceEntry>>, stored: map<Id, BookInstance>, es: seq<InstanceEntry>,
                            lo: nat, books: seq<Slot<BookEntry>>, now: Date) {
    |slots| == |es| &&
    forall j :: lo <= j < |es| ==>
      slots[j].Doc? && slots[j].id in stored && InstanceStored(stored[slots[j].id], es[j], books, now)
  }

  /** `m` holds everything `before` held, unchanged. */
  predicate Extends<V(==)>(before: map<Id, V>, m: map<Id, V>) {
    forall id :: id in before ==> id in m && m[id] == before[id]
  }

  lemma ExtendsTrans<V>(a: map<Id, V>, b: map<Id, V>, c: map<Id, V>)
    requires Extends(a, b) && Extends(b, c)
    ensures Extends(a, c)
  {
  }

  /** One author create stores its entry's author under a fresh identifier. */
  lemma AuthorStepStores(s: SeedState, es: seq<AuthorEntry>, i: nat)
    requires s.db.Valid() && i < |s.authors| == |es| && s.authors[i] == Pending(es[i]) && AuthorReady(es[i])
    ensures var r := AuthorStep(s, i);
            && r.ok && r.state.authors[i].Doc? && r.state.authors[i].id in r.state.db.authors
            && AuthorStored(r.state.db.authors[r.state.authors[i].id], es[i])
            && Extends(s.db.authors, r.state.db.authors)
            && forall j :: i < j < |es| ==> r.state.authors[j] == s.authors[j]
  {
  }

  lemma AuthorsStoredCons(slots: seq<Slot<AuthorEntry>>, stored: map<Id, Author>, es: seq<AuthorEntry>, i: nat)
    requires AuthorsStored(slots, stored, es, i + 1) && i < |es|
    requires slots[i].Doc? && slots[i].id in stored && AuthorStored(stored[slots[i].id], es[i])
    ensures AuthorsStored(slots, stored, es, i)
  {
  }

  /** The author stage from item `i` on stores each entry's author in its
      slot and keeps every author stored before. */
  lemma {:induction false} AuthorStageStores(s: SeedState, es: seq<AuthorEntry>, i: nat, now: Date)
    requires s.db.Valid() && i <= |s.authors| == |es|
    requires forall j :: i <= j < |es| ==> s.authors[j] == Pending(es[j]) && AuthorReady(es[j])
    ensures var t := StageFrom(AuthorStage, s, i, now).state;
            && t.genres == s.genres && t.books == s.books && t.instances == s.instances
            && Extends(s.db.authors, t.db.authors)
            && AuthorsStored(t.authors, t.db.authors, es, i)
    decreases |es| - i
  {
    if i < |es| {
      var step := AuthorStep(s, i);
      AuthorStepStores(s, es, i);
      StageFromStep(AuthorStage, s, i, now);
      AuthorStageStores(step.state, es, i + 1, now);
      StageFromKeeps(AuthorStage, step.state, i + 1, now);
      var t := StageFrom(AuthorStage, step.state, i + 1, now).state;
      assert SameSlot(AuthorStage, step.state, t, i);
      ExtendsTrans(s.db.authors, step.state.db.authors, t.db.authors);
      AuthorsStoredCons(t.authors, t.db.authors, es, i);
    }
  }

  /** One book create stores its entry's book under a fresh identifier. */
  lemma BookStepStores(s: SeedState, es: seq<BookEntry>, i: nat)
    requires s.db.Valid() && i < |s.books| == |es| && s.books[i] == Pending(es[i]) && BookReady(s, es[i])
    ensures var r := BookStep(s, i);
            && r.ok && r.state.books[i].Doc? && r.state.books[i].id in r.state.db.books
            && BookStored(r.state.db.books[r.state.books[i].id], es[i], s.authors, s.genres)
            && Extends(s.db.books, r.state.db.books)
            && forall j :: i < j < |es| ==> r.state.books[j] == s.books[j]
  {
  }

  lemma BooksStoredCons(slots: seq<Slot<BookEntry>>, stored: map<Id, Book>, es: seq<BookEntry>, i: nat,
                        authors: seq<Slot<AuthorEntry>>, genres: seq<Slot<GenreEntry>>)
    requires BooksStored(slots, stored, es, i + 1, authors, genres) && i < |es|
    requires slots[i].Doc? && slots[i].id in stored && BookStored(stored[slots[i].id], es[i], authors, genres)
    ensures BooksStored(slots, stored, es, i, authors, genres)
  {
  }

  /** The book stage from item `i` on stores each entry's book in its slot
      and keeps every book stored before. */
  lemma {:induction false} BookStageStores(s: SeedState, es: seq<BookEntry>, i: nat, now: Date)
    requires s.db.Valid() && i <= |s.books| == |es|
    requires forall j :: i <= j < |es| ==> s.books[j] == Pending(es[j]) && BookReady(s, es[j])
    ensures var t := StageFrom(BookStage, s, i, now).state;
            && t.genres == s.genres && t.authors == s.authors && t.instances == s.instances
            && t.db.authors == s.db.authors
            && Extends(s.db.books, t.db.books)
            && BooksStored(t.books, t.db.books, es, i, s.authors, s.genres)
    decreases |es| - i
  {
    if i < |es| {
      var step := BookStep(s, i);
      BookStepStores(s, es, i);
      StageFromStep(BookStage, s, i, now);
      BookStageStores(step.state, es, i + 1, now);
      StageFromKeeps(BookStage, step.state, i + 1, now);
      var t := StageFrom(BookStage, step.state, i + 1, now).state;
      assert SameSlot(BookStage, step.state, t, i);
      ExtendsTrans(s.db.books, step.state.db.books, t.db.books);
      BooksStoredCons(t.books, t.db.books, es, i, s.authors, s.genres);
    }
  }

  /** One instance create stores its entry's instance under a fresh identifier. */
  lemma InstanceStepStores(s: SeedState, es: seq<InstanceEntry>, i: nat, now: Date)
    requires s.db.Valid() && i < |s.instances| == |es| && s.instances[i] == Pending(es[i]) && InstanceReady(s, es[i])
    ensures var r := InstanceStep(s, i, now);
            && r.ok && r.state.instances[i].Doc? && r.state.instances[i].id in r.state.db.instances
            && InstanceStored(r.state.db.instances[r.state.instances[i].id], es[i], s.books, now)
            && Extends(s.db.instances, r.state.db.instances)
            && forall j :: i < j < |es| ==> r.state.instances[j] == s.instances[j]
  {
  }

  lemma InstancesStoredCons(slots: seq<Slot<InstanceEntry>>, stored: map<Id, BookInstance>, es: seq<InstanceEntry>,
                            i: nat, books: seq<Slot<BookEntry>>, now: Date)
    requires InstancesStored(slots, stored, es, i + 1, books, now) && i < |es|
    requires slots[i].Doc? && slots[i].id in stored && InstanceStored(stored[slots[i].id], es[i], books, now)
    ensures InstancesStored(slots, stored, es, i, books, now)
  {
  }

  /** The instance stage from item `i` on stores each entry's instance in
      its slot and keeps every instance stored before. */
  lemma {:induction false} InstanceStageStores(s: SeedState, es: seq<InstanceEntry>, i: nat, now: Date)
    requires s.db.Valid() && i <= |s.instances| == |es|
    requires forall j :: i <= j < |es| ==> s.instances[j] == Pending(es[j]) && InstanceReady(s, es[j])
    ensures var t := StageFrom(InstanceStage, s, i, now).state;
            && t.genres == s.genres && t.authors == s.authors && t.books == s.books
            && t.db.authors == s.db.authors && t.db.books == s.db.books
            && Extends(s.db.instances, t.db.instances)
            && InstancesStored(t.instances, t.db.instances, es, i, s.books, now)
    decreases |es| - i
  {
    if i < |es| {
      var step := InstanceStep(s, i, now);
      InstanceStepStores(s, es, i, now);
      StageFromStep(InstanceStage, s, i, now);
      InstanceStageStores(step.state, es, i + 1, now);
      StageFromKeeps(InstanceStage, step.state, i + 1, now);
      var t := StageFrom(InstanceStage, step.state, i + 1, now).state;
      assert SameSlot(InstanceStage, step.state, t, i);
      ExtendsTrans(s.db.instances, step.state.db.instances, t.db.instances);
      InstancesStoredCons(t.instances, t.db.instances, es, i, s.books, now);
    }
  }

  /** The instance stage of a seedable file, once the books are in. */
  lemma RunFromInstancesStores(s: SeedState, d: Data, now: Date)
    requires s.db.Valid() && Seedable(d) && |s.books| == |d.books|
    requires s.AllDone(BookStage) && s.instances == Pendings(d.instances)
    ensures var r := RunFrom(InstanceStage, s, now);
            && r.result == Completed
            && r.state.genres == s.genres && r.state.authors == s.authors && r.state.books == s.books
            && r.state.db.authors == s.db.authors && r.state.db.books == s.db.books
            && InstancesStored(r.state.instances, r.state.db.instances, d.instances, 0, s.books, now)
  {
    InstancesReady(s, d);
    InstanceStageAdds(s, 0, now);
    InstanceStageStores(s, d.instances, 0, now);
    RunFromUnfold(InstanceStage, s, now);
  }

  /** The book and instance stages of a seedable file, once genres and
      authors are in. */
  lemma RunFromBooksStores(s: SeedState, d: Data, now: Date)
    requires s.db.Valid() && Seedable(d) && |s.genres| == |d.genres| && |s.authors| == |d.authors|
    requires s.AllDone(GenreStage) && s.AllDone(AuthorStage)
    requires s.books == Pendings(d.books) && s.instances == Pendings(d.instances)
    ensures var r := RunFrom(BookStage, s, now);
            && r.result == Completed
            && r.state.genres == s.genres && r.state.authors == s.authors
            && r.state.db.authors == s.db.authors
            && BooksStored(r.state.books, r.state.db.books, d.books, 0, s.authors, s.genres)
            && InstancesStored(r.state.instances, r.state.db.instances, d.instances, 0, r.state.books, now)
  {
    BooksReady(s, d);
    BookStageOfSeedable(s, d, now);
    BookStageStores(s, d.books, 0, now);
    RunFromUnfold(BookStage, s, now);
    RunFromInstancesStores(StageFrom(BookStage, s, 0, now).state, d, now);
  }

  /** The author stage of a seedable file, once the genres are in. */
  lemma AuthorStageOfSeedable(s: SeedState, d: Data, now: Date)
    requires s.db.Valid() && Seedable(d) && |s.genres| == |d.genres| && s.AllDone(GenreStage)
    requires s.authors == Pendings(d.authors) && s.books == Pendings(d.books)
    requires s.instances == Pendings(d.instances)
    ensures var a := StageFrom(AuthorStage, s, 0, now);
            && a.failed == [] && a.state.AllDone(GenreStage) && a.state.AllDone(AuthorStage)
            && a.state.genres == s.genres && a.state.books == s.books && a.state.instances == s.instances
            && AuthorsStored(a.state.authors, a.state.db.authors, d.authors, 0)
  {
    AuthorStageAdds(s, 0, now);
    AuthorStageStores(s, d.authors, 0, now);
    StageEffect(AuthorStage, s, now);
  }

  /** The author stage and the stages after it, on a seedable file. */
  lemma RunFromAuthorsStores(s: SeedState, d: Data, now: Date)
    requires s.db.Valid() && Seedable(d) && |s.genres| == |d.genres| && s.AllDone(GenreStage)
    requires s.authors == Pendings(d.authors) && s.books == Pendings(d.books)
    requires s.instances == Pendings(d.instances)
    ensures var r := RunFrom(AuthorStage, s, now);
            && r.result == Completed
            && r.state.genres == s.genres
            && AuthorsStored(r.state.authors, r.state.db.authors, d.authors, 0)
            && BooksStored(r.state.books, r.state.db.books, d.books, 0, r.state.authors, s.genres)
            && InstancesStored(r.state.instances, r.state.db.instances, d.instances, 0, r.state.books, now)
  {
    AuthorStageOfSeedable(s, d, now);
    RunFromUnfold(AuthorStage, s, now);
    RunFromBooksStores(StageFrom(AuthorStage, s, 0, now).state, d, now);
  }

  /** Seeding a seedable file into any store: every author, book and
      instance entry's slot holds a document stored with the entry's own
      fields, each book referring to the author and genres in the slots its
      entry names and each instance to the book in its entry's book slot. */
  lemma SeedStores(db: Db, d: Data, now: Date)
    requires db.Valid() && Seedable(d)
    ensures var r := Seed(Start(db, d), now);
            && r.result == Completed
            && AuthorsStored(r.state.authors, r.state.db.authors, d.authors, 0)
            && BooksStored(r.state.books, r.state.db.books, d.books, 0, r.state.authors, r.state.genres)
            && InstancesStored(r.state.instances, r.state.db.instances, d.instances, 0, r.state.books, now)
  {
    var s := Start(db, d);
    GenreStageOfSeedable(db, d, now);
    RunFromUnfold(GenreStage, s, now);
    RunFromAuthorsStores(StageFrom(GenreStage, s, 0, now).state, d, now);
  }

  /** The seed file, run into an empty store, stores its three genres, one
      author, two books and one instance; run again into that store it
      finds the three genres and adds a second copy of everything else. */
  lemma FixtureSeeds(now: Date)
    ensures var first := Seed(Start(EmptyDb, Fixture), now);
            && first.result == Completed
            && |first.state.db.genres| == 3 && |first.state.db.authors| == 1
            && |first.state.db.books| == 2 && |first.state.db.instances| == 1
            && var again := Seed(Start(first.state.db, Fixture), now);
               && again.result == Completed
               && again.state.db.genres == first.state.db.genres && |again.state.db.authors| == 2
               && |again.state.db.books| == 4 && |again.state.db.instances| == 2
  {
    FixtureOk();
    assert Seedable(Fixture);
    SeedCompletes(EmptyDb, Fixture, now);
    SeedGenresAllNew(EmptyDb, Fixture, now);
    var first := Seed(Start(EmptyDb, Fixture), now);
    SeedCompletes(first.state.db, Fixture, now);
    SeedGenresAllStored(first.state.db, Fixture, now);
  }

  /** What the seed file's first run into an empty store holds: the first
      book lists the three genres in order, the second book (genre field
      `false`) lists none, both refer to the one author, who has no dates,
      and the one instance refers to the second book with the status it
      names and the save time as its due date. */
  lemma FixtureContents(now: Date)
    ensures var f := Seed(Start(EmptyDb, Fixture), now).state;
            && |f.genres| == 3 && |f.authors| == 1 && |f.books| == 2 && |f.instances| == 1
            && f.genres[0].Doc? && f.genres[1].Doc? && f.genres[2].Doc? && f.authors[0].Doc?
            && f.books[0].Doc? && f.books[1].Doc? && f.instances[0].Doc?
            && f.authors[0].id in f.db.authors && f.books[0].id in f.db.books && f.books[1].id in f.db.books
            && f.instances[0].id in f.db.instances
            && f.db.authors[f.authors[0].id] == Author("Fake", "Author", None, None)
            && f.db.books[f.books[0].id] == Book("Book-1", "summary 1", "1", f.authors[0].id,
                                                  [f.genres[0].id, f.genres[1].id, f.genres[2].id])
            && f.db.books[f.books[1].id] == Book("Book-2", "summary 2", "2", f.authors[0].id, [])
            && f.db.instances[f.instances[0].id] == BookInstance(f.books[1].id, "XYZ", Maintenance, now)
  {
    FixtureOk();
    assert Seedable(Fixture);
    var s := Start(EmptyDb, Fixture);
    SeedStores(EmptyDb, Fixture, now);
    RunFromKeeps(GenreStage, s, now);
    var f := Seed(s, now).state;
    assert f.Count(GenreStage) == 3;
    FixtureBookOne(f.db.books[f.books[0].id], f.authors, f.genres);
    assert BookStored(f.db.books[f.books[1].id], Books[1], f.authors, f.genres);
    assert InstanceStored(f.db.instances[f.instances[0].id], Instances[0], f.books, now);
    assert AuthorStored(f.db.authors[f.authors[0].id], Authors[0]);
    InstanceStatusKeepsName(Maintenance);
  }

  /** The first book entry lists genres 0, 1 and 2: its book holds the
      documents in those three slots, in that order. */
  lemma FixtureBookOne(b: Book, authors: seq<Slot<AuthorEntry>>, genres: seq<Slot<GenreEntry>>)
    requires BookStored(b, Books[0], authors, genres)
    ensures |genres| >= 3 && genres[0].Doc? && genres[1].Doc? && genres[2].Doc?
    ensures b == Book("Book-1", "summary 1", "1", authors[0].id, [genres[0].id, genres[1].id, genres[2].id])
  {
    assert Books[0].genre == Given([0, 1, 2]) && !LooselyFalse([0, 1, 2]);
    assert ResolveAll(genres, [0, 1, 2]) == Some(b.genre);
    assert Resolve(genres, 0) == Some(b.genre[0]) && Resolve(genres, 1) == Some(b.genre[1])
           && Resolve(genres, 2) == Some(b.genre[2]);
  }
}
