/** The seeder: four stages run in order (genres, authors, books, book
    instances). Each stage creates one document per entry of its array and
    writes the created (or, for a genre, the found) document back into the
    entry's own slot; later stages turn the indexes their entries hold into
    references by reading those slots. */
module Populate {
  import opened Text
  import opened Listing
  import opened Catalog
  import opened Dataset
  import opened LooseEquality

  /** A slot of one of the four arrays: still the entry read from the data
      file, or the document created (or found) for it. */
  datatype Slot<E> = Pending(entry: E) | Doc(id: Id)

  datatype Stage = GenreStage | AuthorStage | BookStage | InstanceStage

  /** The position of a stage in the order `main` awaits them in. */
  function Rank(stage: Stage): nat {
    match stage
    case GenreStage => 0
    case AuthorStage => 1
    case BookStage => 2
    case InstanceStage => 3
  }

  /** The store together with the four arrays the seeder writes into. */
  datatype SeedState = SeedState(db: Db, genres: seq<Slot<GenreEntry>>, authors: seq<Slot<AuthorEntry>>,
                                 books: seq<Slot<BookEntry>>, instances: seq<Slot<InstanceEntry>>)
  {
    function Count(stage: Stage): nat {
      match stage
      case GenreStage => |genres|
      case AuthorStage => |authors|
      case BookStage => |books|
      case InstanceStage => |instances|
    }

    /** Whether slot `j` of `stage` holds a document. */
    predicate Done(stage: Stage, j: nat)
      requires j < Count(stage)
    {
      match stage
      case GenreStage => genres[j].Doc?
      case AuthorStage => authors[j].Doc?
      case BookStage => books[j].Doc?
      case InstanceStage => instances[j].Doc?
    }

    predicate AllDone(stage: Stage) {
      forall j :: 0 <= j < Count(stage) ==> Done(stage, j)
    }

    predicate AllPending(stage: Stage) {
      forall j :: 0 <= j < Count(stage) ==> !Done(stage, j)
    }

    /** Every document a slot holds is in the store. */
    ghost predicate SlotsResolve() {
      && (forall j :: 0 <= j < |genres| && genres[j].Doc? ==> genres[j].id in db.genres)
      && (forall j :: 0 <= j < |authors| && authors[j].Doc? ==> authors[j].id in db.authors)
      && (forall j :: 0 <= j < |books| && books[j].Doc? ==> books[j].id in db.books)
      && (forall j :: 0 <= j < |instances| && instances[j].Doc? ==> instances[j].id in db.instances)
    }
  }

  function Pendings<E>(es: seq<E>): (r: seq<Slot<E>>)
    ensures |r| == |es| && forall j :: 0 <= j < |es| ==> r[j] == Pending(es[j])
  {
    seq(|es|, j requires 0 <= j < |es| => Pending(es[j]))
  }

  /** The arrays as `require("./data")` hands them over, next to the store. */
  function Start(db: Db, d: Data): (s: SeedState)
    ensures s.db == db
    ensures forall stage :: s.AllPending(stage)
    ensures s.Count(GenreStage) == |d.genres| && s.Count(AuthorStage) == |d.authors|
    ensures s.Count(BookStage) == |d.books| && s.Count(InstanceStage) == |d.instances|
  {
    SeedState(db, Pendings(d.genres), Pendings(d.authors), Pendings(d.books), Pendings(d.instances))
  }

  /** `slots[k]` used as a reference: only a created document casts to an
      identifier; a plain entry, or nothing at all past the end, does not. */
  function Resolve<E>(slots: seq<Slot<E>>, k: nat): (r: Option<Id>)
    ensures r.Some? <==> k < |slots| && slots[k].Doc?
    ensures r.Some? ==> r.value == slots[k].id
  {
    if k < |slots| && slots[k].Doc? then Some(slots[k].id) else None
  }

  /** `ks.map(k => slots[k])` used as a list of references. */
  function ResolveAll<E>(slots: seq<Slot<E>>, ks: seq<nat>): (r: Option<seq<Id>>)
    ensures r.Some? <==> forall k :: k in ks ==> Resolve(slots, k).Some?
    ensures r.Some? ==> |r.value| == |ks|
                        && forall j :: 0 <= j < |ks| ==> Resolve(slots, ks[j]) == Some(r.value[j])
  {
    if ks == [] then Some([])
    else
      match (Resolve(slots, ks[0]), ResolveAll(slots, ks[1..]))
      case (Some(id), Some(ids)) =>
        assert forall k :: k in ks ==> k == ks[0] || k in ks[1..];
        Some([id] + ids)
      case _ =>
        assert ks[0] in ks && forall k :: k in ks[1..] ==> k in ks;
        None
  }

  /** One item's create: the state afterwards and whether its promise resolved. */
  datatype StepResult = StepResult(state: SeedState, ok: bool)

  /** `genreCreate`, with the lookup keyed by the entry's own `name`: the
      genre of the same name up to case if one is stored, else a new one. */
  function GenreStep(s: SeedState, i: nat): (r: StepResult)
    requires s.db.Valid() && i < |s.genres| && s.genres[i].Pending?
    ensures r.state.db.Valid()
    ensures r.state.authors == s.authors && r.state.books == s.books && r.state.instances == s.instances
    ensures r.state.db.authors == s.db.authors && r.state.db.books == s.db.books
            && r.state.db.instances == s.db.instances
    ensures !r.ok ==> r.state == s
    ensures |r.state.genres| == |s.genres|
    ensures r.ok ==> r.state.genres == s.genres[i := r.state.genres[i]] && r.state.genres[i].Doc?
                     && r.state.genres[i].id in r.state.db.genres
                     && SameIgnoringCase(r.state.db.genres[r.state.genres[i].id].name, s.genres[i].entry.name)
    // a stored genre of that name up to case: it fills the slot, nothing is added
    ensures GenresNamed(s.db.genres, s.genres[i].entry.name) != {} ==>
              r.ok && r.state.db == s.db
    // none: exactly one genre is added, if the schema accepts the name
    ensures GenresNamed(s.db.genres, s.genres[i].entry.name) == {} ==>
              (r.ok <==> GenreSchemaOk(Genre(s.genres[i].entry.name)))
              && (r.ok ==> r.state.genres[i].id !in s.db.genres
                           && r.state.db.genres == s.db.genres[r.state.genres[i].id := Genre(s.genres[i].entry.name)]
                           && |r.state.db.genres| == |s.db.genres| + 1)
  {
    var name := s.genres[i].entry.name;
    match FindGenreNamed(s.db, name)
    case Some(id) =>
      assert id in GenresNamed(s.db.genres, name);
      StepResult(s.(genres := s.genres[i := Doc(id)]), true)
    case None =>
      var saved := s.db.SaveGenre(Genre(name));
      if saved.id.Some? then StepResult(s.(db := saved.db, genres := s.genres[i := Doc(saved.id.value)]), true)
      else StepResult(s, false)
  }

  /** `genreCreate` as written: its lookup reads `req.body.name`, and no
      `req` is in scope, so the call throws before touching the store. */
  function GenreStepAsWritten(s: SeedState, i: nat): (r: StepResult)
    requires i < |s.genres| && s.genres[i].Pending?
    ensures !r.ok && r.state == s
  {
    StepResult(s, false)
  }

  /** `authorCreate`. It reads fields `d_birth` and `d_death`, which no
      entry has, so no author it creates carries a date. */
  function AuthorStep(s: SeedState, i: nat): (r: StepResult)
    requires s.db.Valid() && i < |s.authors| && s.authors[i].Pending?
    ensures r.state.db.Valid()
    ensures r.state.genres == s.genres && r.state.books == s.books && r.state.instances == s.instances
    ensures r.state.db.genres == s.db.genres && r.state.db.books == s.db.books
            && r.state.db.instances == s.db.instances
    ensures !r.ok ==> r.state == s
    ensures r.ok <==> 1 <= |s.authors[i].entry.firstName| <= 100 && 1 <= |s.authors[i].entry.familyName| <= 100
    ensures |r.state.authors| == |s.authors|
    ensures r.ok ==> r.state.authors == s.authors[i := r.state.authors[i]] && r.state.authors[i].Doc?
                     && r.state.authors[i].id !in s.db.authors
                     && r.state.db.authors == s.db.authors[r.state.authors[i].id :=
                          Author(s.authors[i].entry.firstName, s.authors[i].entry.familyName, None, None)]
                     && |r.state.db.authors| == |s.db.authors| + 1
  {
    var e := s.authors[i].entry;
    var saved := s.db.SaveAuthor(Author(e.firstName, e.familyName, None, None));
    if saved.id.Some? then StepResult(s.(db := saved.db, authors := s.authors[i := Doc(saved.id.value)]), true)
    else StepResult(s, false)
  }

  /** The genre list `bookCreate` stores: none when the field is loosely
      `false`, otherwise the documents in the genre slots the entry lists. */
  function BookGenres(genres: seq<Slot<GenreEntry>>, field: Field<seq<nat>>): (r: Option<seq<Id>>)
    ensures field.NotGiven? || LooselyFalse(field.value) ==> r == Some([])
    ensures field.Given? && !LooselyFalse(field.value) ==> r == ResolveAll(genres, field.value)
  {
    if field.NotGiven? || LooselyFalse(field.value) then Some([]) else ResolveAll(genres, field.value)
  }

  /** `bookCreate`: the author is the document in the entry's author slot. */
  function BookStep(s: SeedState, i: nat): (r: StepResult)
    requires s.db.Valid() && i < |s.books| && s.books[i].Pending?
    ensures r.state.db.Valid()
    ensures r.state.genres == s.genres && r.state.authors == s.authors && r.state.instances == s.instances
    ensures r.state.db.genres == s.db.genres && r.state.db.authors == s.db.authors
            && r.state.db.instances == s.db.instances
    ensures !r.ok ==> r.state == s
    ensures var e := s.books[i].entry;
            r.ok <==> Resolve(s.authors, e.author).Some? && BookGenres(s.genres, e.genre).Some?
                      && e.title != [] && e.summary != [] && e.isbn != []
    ensures |r.state.books| == |s.books|
    ensures r.ok ==> var e := s.books[i].entry;
                     && r.state.books == s.books[i := r.state.books[i]] && r.state.books[i].Doc?
                     && r.state.books[i].id !in s.db.books
                     && r.state.db.books == s.db.books[r.state.books[i].id :=
                          Book(e.title, e.summary, e.isbn, s.authors[e.author].id, BookGenres(s.genres, e.genre).value)]
                     && |r.state.db.books| == |s.db.books| + 1
  {
    var e := s.books[i].entry;
    var author := Resolve(s.authors, e.author);
    var genre := BookGenres(s.genres, e.genre);
    if author.None? || genre.None? then StepResult(s, false)
    else
      var saved := s.db.SaveBook(Book(e.title, e.summary, e.isbn, author.value, genre.value));
      if saved.id.Some? then StepResult(s.(db := saved.db, books := s.books[i := Doc(saved.id.value)]), true)
      else StepResult(s, false)
  }

  /** The status `bookInstanceCreate` stores: the schema default when the
      field is loosely `false` (it converts to the number 0), otherwise the
      given string if the `enum` allows it. */
  function InstanceStatus(field: Field<string>): (r: Option<Status>)
    ensures field.NotGiven? || NumberIsZero(field.value) ==> r == Some(Maintenance)
    ensures field.Given? && !NumberIsZero(field.value) ==> r == ParseStatus(field.value)
  {
    if field.NotGiven? || NumberIsZero(field.value) then Some(Maintenance) else ParseStatus(field.value)
  }

  /** A status given by its own name is the status stored: no status name
      is loosely `false`. */
  lemma InstanceStatusKeepsName(st: Status)
    ensures InstanceStatus(Given(StatusName(st))) == Some(st)
  {
    var name := StatusName(st);
    assert name[0] == 'A' || name[0] == 'M' || name[0] == 'L' || name[0] == 'R';
    CapitalisedWordNotZero(name);
    ParseStatusName(st, name);
  }

  /** A status of `"0"` is loosely `false`, so it takes the default rather
      than failing the `enum`. */
  lemma ZeroStatusTakesDefault()
    ensures InstanceStatus(Given("0")) == Some(Maintenance)
    ensures ParseStatus("0") == None
  {
    DecimalTextIsZero(0);
    assert DecimalText(0) == "0";
  }

  /** `bookInstanceCreate`: the book is the document in the entry's book
      slot; an unavailable due date takes the schema default, the time
      `now` of the save. */
  function InstanceStep(s: SeedState, i: nat, now: Date): (r: StepResult)
    requires s.db.Valid() && i < |s.instances| && s.instances[i].Pending?
    ensures r.state.db.Valid()
    ensures r.state.genres == s.genres && r.state.authors == s.authors && r.state.books == s.books
    ensures r.state.db.genres == s.db.genres && r.state.db.authors == s.db.authors
            && r.state.db.books == s.db.books
    ensures !r.ok ==> r.state == s
    ensures var e := s.instances[i].entry;
            r.ok <==> Resolve(s.books, e.book).Some? && InstanceStatus(e.status).Some? && e.imprint != []
    ensures |r.state.instances| == |s.instances|
    ensures r.ok ==> var e := s.instances[i].entry;
                     && r.state.instances == s.instances[i := r.state.instances[i]] && r.state.instances[i].Doc?
                     && r.state.instances[i].id !in s.db.instances
                     && r.state.db.instances == s.db.instances[r.state.instances[i].id :=
                          BookInstance(s.books[e.book].id, e.imprint, InstanceStatus(e.status).value,
                                       if e.dueBack.Given? then e.dueBack.value else now)]
                     && |r.state.db.instances| == |s.db.instances| + 1
  {
    var e := s.instances[i].entry;
    var book := Resolve(s.books, e.book);
    var status := InstanceStatus(e.status);
    var dueBack := if e.dueBack.Given? then e.dueBack.value else now;
    if book.None? || status.None? then StepResult(s, false)
    else
      var saved := s.db.SaveInstance(BookInstance(book.value, e.imprint, status.value, dueBack));
      if saved.id.Some? then StepResult(s.(db := saved.db, instances := s.instances[i := Doc(saved.id.value)]), true)
      else StepResult(s, false)
  }

  /** `t` differs from `s` at most in the store and in the slots of `stage`
      from `lo` on. */
  predicate SlotsKept(stage: Stage, s: SeedState, t: SeedState, lo: nat) {
    && (stage == GenreStage || t.genres == s.genres)
    && (stage == AuthorStage || t.authors == s.authors)
    && (stage == BookStage || t.books == s.books)
    && (stage == InstanceStage || t.instances == s.instances)
    && (forall st :: t.Count(st) == s.Count(st))
    && (forall j :: 0 <= j < lo && j < s.Count(stage) ==> SameSlot(stage, s, t, j))
  }

  predicate SameSlot(stage: Stage, s: SeedState, t: SeedState, j: nat)
    requires j < s.Count(stage) && j < t.Count(stage)
  {
    match stage
    case GenreStage => t.genres[j] == s.genres[j]
    case AuthorStage => t.authors[j] == s.authors[j]
    case BookStage => t.books[j] == s.books[j]
    case InstanceStage => t.instances[j] == s.instances[j]
  }

  lemma SameSlotDone(stage: Stage, s: SeedState, t: SeedState, lo: nat, hi: nat)
    requires hi <= s.Count(stage) && hi <= t.Count(stage)
    requires forall j :: lo <= j < hi ==> SameSlot(stage, s, t, j)
    ensures forall j :: lo <= j < hi ==> (t.Done(stage, j) <==> s.Done(stage, j))
  {
    forall j | lo <= j < hi ensures t.Done(stage, j) <==> s.Done(stage, j) {
      assert SameSlot(stage, s, t, j);
      match stage {
        case GenreStage =>
        case AuthorStage =>
        case BookStage =>
        case InstanceStage =>
      }
    }
  }

  /** The slots of the other stages are where they were. */
  lemma OtherStagesKept(stage: Stage, s: SeedState, t: SeedState, lo: nat)
    requires SlotsKept(stage, s, t, lo)
    ensures forall st :: st != stage ==> (t.AllDone(st) <==> s.AllDone(st))
                                         && (t.AllPending(st) <==> s.AllPending(st))
  {
    forall st | st != stage
      ensures (t.AllDone(st) <==> s.AllDone(st)) && (t.AllPending(st) <==> s.AllPending(st))
    {
      match st {
        case GenreStage =>
          assert t.genres == s.genres;
          assert forall j :: 0 <= j < s.Count(st) ==> (t.Done(st, j) <==> s.Done(st, j));
        case AuthorStage =>
          assert t.authors == s.authors;
          assert forall j :: 0 <= j < s.Count(st) ==> (t.Done(st, j) <==> s.Done(st, j));
        case BookStage =>
          assert t.books == s.books;
          assert forall j :: 0 <= j < s.Count(st) ==> (t.Done(st, j) <==> s.Done(st, j));
        case InstanceStage =>
          assert t.instances == s.instances;
          assert forall j :: 0 <= j < s.Count(st) ==> (t.Done(st, j) <==> s.Done(st, j));
      }
    }
  }

  lemma SlotsKeptTrans(stage: Stage, s: SeedState, m: SeedState, t: SeedState, i: nat)
    requires SlotsKept(stage, s, m, i) && SlotsKept(stage, m, t, i + 1)
    ensures SlotsKept(stage, s, t, i)
  {
    forall j | 0 <= j < i && j < s.Count(stage) ensures SameSlot(stage, s, t, j) {
      assert SameSlot(stage, s, m, j) && SameSlot(stage, m, t, j);
    }
  }

  /** The create for item `i` of `stage`. */
  function ItemStep(stage: Stage, s: SeedState, i: nat, now: Date): (r: StepResult)
    requires s.db.Valid() && i < s.Count(stage) && !s.Done(stage, i)
    ensures r.state.db.Valid()
  {
    match stage
    case GenreStage => GenreStep(s, i)
    case AuthorStage => AuthorStep(s, i)
    case BookStage => BookStep(s, i)
    case InstanceStage => InstanceStep(s, i, now)
  }

  /** Each per-item create writes its own slot and no other, and fills
      it exactly when it succeeds. */
  lemma ItemStepWritesOwnSlot(stage: Stage, s: SeedState, i: nat, now: Date)
    requires s.db.Valid() && i < s.Count(stage) && !s.Done(stage, i)
    ensures var r := ItemStep(stage, s, i, now);
            && (!r.ok ==> r.state == s)
            && SlotsKept(stage, s, r.state, i)
            && (forall j :: i < j < s.Count(stage) ==> SameSlot(stage, s, r.state, j))
            && (r.ok <==> r.state.Done(stage, i))
  {
  }

  /** A stage's run and the indexes of the items whose create failed. */
  datatype StageResult = StageResult(state: SeedState, failed: seq<nat>)

  /** Items `i` onwards of `stage`, one after another. Every item runs,
      whether or not an earlier one failed, as every promise handed to
      `Promise.all` has been started. */
  function StageFrom(stage: Stage, s: SeedState, i: nat, now: Date): (r: StageResult)
    requires s.db.Valid() && i <= s.Count(stage)
    requires forall j :: i <= j < s.Count(stage) ==> !s.Done(stage, j)
    ensures r.state.db.Valid()
    decreases s.Count(stage) - i
  {
    if i == s.Count(stage) then StageResult(s, [])
    else
      var step := ItemStep(stage, s, i, now);
      ItemStepWritesOwnSlot(stage, s, i, now);
      SameSlotDone(stage, s, step.state, i + 1, s.Count(stage));
      var rest := StageFrom(stage, step.state, i + 1, now);
      StageResult(rest.state, if step.ok then rest.failed else [i] + rest.failed)
  }

  /** Items `i` onwards write only their own slots. */
  lemma {:induction false} StageFromKeeps(stage: Stage, s: SeedState, i: nat, now: Date)
    requires s.db.Valid() && i <= s.Count(stage)
    requires forall j :: i <= j < s.Count(stage) ==> !s.Done(stage, j)
    ensures SlotsKept(stage, s, StageFrom(stage, s, i, now).state, i)
    decreases s.Count(stage) - i
  {
    if i < s.Count(stage) {
      var step := ItemStep(stage, s, i, now);
      ItemStepWritesOwnSlot(stage, s, i, now);
      SameSlotDone(stage, s, step.state, i + 1, s.Count(stage));
      StageFromKeeps(stage, step.state, i + 1, now);
      SlotsKeptTrans(stage, s, step.state, StageFrom(stage, step.state, i + 1, now).state, i);
    }
  }

  /** An item's create fills its slot exactly when it succeeds. */
  lemma ItemStepFills(stage: Stage, s: SeedState, i: nat, now: Date)
    requires s.db.Valid() && i < s.Count(stage) && !s.Done(stage, i)
    ensures var r := ItemStep(stage, s, i, now);
            i < r.state.Count(stage) && (r.ok <==> r.state.Done(stage, i))
  {
    ItemStepWritesOwnSlot(stage, s, i, now);
  }

  /** The items from `lo` on leave the slots before `lo` as they were. */
  lemma StageFromKeepsDone(stage: Stage, s: SeedState, lo: nat, now: Date)
    requires s.db.Valid() && lo <= s.Count(stage)
    requires forall j :: lo <= j < s.Count(stage) ==> !s.Done(stage, j)
    ensures var t := StageFrom(stage, s, lo, now).state;
            t.Count(stage) == s.Count(stage)
            && forall j :: 0 <= j < lo ==> (t.Done(stage, j) <==> s.Done(stage, j))
  {
    StageFromKeeps(stage, s, lo, now);
    SameSlotDone(stage, s, StageFrom(stage, s, lo, now).state, 0, lo);
  }

  /** Prepending item `i`'s outcome to the failures of the items after it. */
  lemma FailedCons(stage: Stage, t: SeedState, failed: seq<nat>, ok: bool, i: nat)
    requires i < t.Count(stage) && (t.Done(stage, i) <==> ok)
    requires forall j :: i < j < t.Count(stage) ==> (t.Done(stage, j) <==> j !in failed)
    requires forall j :: j in failed ==> i < j < t.Count(stage)
    ensures var f := if ok then failed else [i] + failed;
            && (forall j :: i <= j < t.Count(stage) ==> (t.Done(stage, j) <==> j !in f))
            && (forall j :: j in f ==> i <= j < t.Count(stage))
  {
    assert i !in failed;
  }

  /** An item's slot holds a document after its stage exactly when its
      create succeeded. */
  lemma {:induction false} StageFromFailed(stage: Stage, s: SeedState, i: nat, now: Date)
    requires s.db.Valid() && i <= s.Count(stage)
    requires forall j :: i <= j < s.Count(stage) ==> !s.Done(stage, j)
    ensures var r := StageFrom(stage, s, i, now);
            && r.state.Count(stage) == s.Count(stage)
            && (forall j :: i <= j < s.Count(stage) ==> (r.state.Done(stage, j) <==> j !in r.failed))
            && (forall j :: j in r.failed ==> i <= j < s.Count(stage))
    decreases s.Count(stage) - i
  {
    if i < s.Count(stage) {
      StageFromStep(stage, s, i, now);
      var step := ItemStep(stage, s, i, now);
      ItemStepFills(stage, s, i, now);
      StageFromFailed(stage, step.state, i + 1, now);
      StageFromKeepsDone(stage, step.state, i + 1, now);
      var rest := StageFrom(stage, step.state, i + 1, now);
      FailedCons(stage, rest.state, rest.failed, step.ok, i);
      assert StageFrom(stage, s, i, now) == StageResult(rest.state, if step.ok then rest.failed else [i] + rest.failed);
    }
  }

  /** How `main` ended: every stage done, or the first stage some item of
      which failed, with the failed indexes; no later stage ran. */
  datatype SeedResult = Completed | Aborted(stage: Stage, failed: seq<nat>)

  datatype SeedRun = SeedRun(state: SeedState, result: SeedResult)

  /** One step of `StageFrom`: item `i` runs, then the items after it. */
  lemma StageFromStep(stage: Stage, s: SeedState, i: nat, now: Date)
    requires s.db.Valid() && i < s.Count(stage)
    requires forall j :: i <= j < s.Count(stage) ==> !s.Done(stage, j)
    ensures var step := ItemStep(stage, s, i, now);
            && step.state.Count(stage) == s.Count(stage)
            && (forall j :: i < j < s.Count(stage) ==> !step.state.Done(stage, j))
            && var rest := StageFrom(stage, step.state, i + 1, now);
               StageFrom(stage, s, i, now) == StageResult(rest.state, if step.ok then rest.failed else [i] + rest.failed)
  {
    var step := ItemStep(stage, s, i, now);
    ItemStepWritesOwnSlot(stage, s, i, now);
    SameSlotDone(stage, s, step.state, i + 1, s.Count(stage));
  }

  /** A whole stage from a state where none of its items has run: it
      completes exactly when every slot of the stage holds a document, and
      leaves the other stages' slots as they were. */
  lemma StageEffect(stage: Stage, s: SeedState, now: Date)
    requires s.db.Valid() && s.AllPending(stage)
    ensures var r := StageFrom(stage, s, 0, now);
            && (forall st :: r.state.Count(st) == s.Count(st))
            && (r.failed == [] <==> r.state.AllDone(stage))
            && (forall st :: st != stage ==> (r.state.AllDone(st) <==> s.AllDone(st))
                                             && (r.state.AllPending(st) <==> s.AllPending(st)))
  {
    var r := StageFrom(stage, s, 0, now);
    StageFromKeeps(stage, s, 0, now);
    StageFromFailed(stage, s, 0, now);
    OtherStagesKept(stage, s, r.state, 0);
    if r.failed != [] {
      assert r.failed[0] in r.failed;
    }
  }

  /** The stage `main` awaits after `stage`. */
  function Next(stage: Stage): (r: Stage)
    requires stage != InstanceStage
    ensures Rank(r) == Rank(stage) + 1
  {
    match stage
    case GenreStage => AuthorStage
    case AuthorStage => BookStage
    case BookStage => InstanceStage
  }

  /** `stage` and the stages after it, each awaited before the next starts. */
  function RunFrom(stage: Stage, s: SeedState, now: Date): (r: SeedRun)
    requires s.db.Valid() && forall st :: Rank(st) >= Rank(stage) ==> s.AllPending(st)
    ensures r.state.db.Valid()
    decreases 3 - Rank(stage)
  {
    StageEffect(stage, s, now);
    var done := StageFrom(stage, s, 0, now);
    if done.failed != [] then SeedRun(done.state, Aborted(stage, done.failed))
    else if stage == InstanceStage then SeedRun(done.state, Completed)
    else RunFrom(Next(stage), done.state, now)
  }

  /** One stage of `RunFrom`: its failures end the run, otherwise the next stage starts from its state. */
  lemma RunFromUnfold(stage: Stage, s: SeedState, now: Date)
    requires s.db.Valid() && s.AllPending(stage) && forall st :: Rank(st) >= Rank(stage) ==> s.AllPending(st)
    ensures var r := StageFrom(stage, s, 0, now);
            && (r.failed != [] ==> RunFrom(stage, s, now) == SeedRun(r.state, Aborted(stage, r.failed)))
            && (r.failed == [] && stage == InstanceStage ==> RunFrom(stage, s, now) == SeedRun(r.state, Completed))
            && (r.failed == [] && stage != InstanceStage ==>
                  r.state.db.Valid()
                  && (forall st :: Rank(st) >= Rank(Next(stage)) ==> r.state.AllPending(st))
                  && RunFrom(stage, s, now) == RunFrom(Next(stage), r.state, now))
  {
    StageEffect(stage, s, now);
  }

  /** `main`: the four stages in order, genres first. */
  function Seed(s: SeedState, now: Date): (r: SeedRun)
    requires s.db.Valid() && forall stage :: s.AllPending(stage)
    ensures r.state.db.Valid()
  {
    RunFrom(GenreStage, s, now)
  }

  /** The stages from `stage` on leave the earlier stages' slots alone. */
  lemma {:induction false} RunFromKeeps(stage: Stage, s: SeedState, now: Date)
    requires s.db.Valid() && forall st :: Rank(st) >= Rank(stage) ==> s.AllPending(st)
    ensures var r := RunFrom(stage, s, now);
            && (forall st :: r.state.Count(st) == s.Count(st))
            && (forall st :: Rank(st) < Rank(stage) ==> (r.state.AllDone(st) <==> s.AllDone(st)))
    decreases 3 - Rank(stage)
  {
    StageEffect(stage, s, now);
    var done := StageFrom(stage, s, 0, now);
    if done.failed == [] && stage != InstanceStage {
      RunFromKeeps(Next(stage), done.state, now);
    }
  }

  /** A run that completes leaves every slot from `stage` on holding a document. */
  lemma {:induction false} RunFromCompleted(stage: Stage, s: SeedState, now: Date)
    requires s.db.Valid() && forall st :: Rank(st) >= Rank(stage) ==> s.AllPending(st)
    requires RunFrom(stage, s, now).result.Completed?
    ensures forall st :: Rank(st) >= Rank(stage) ==> RunFrom(stage, s, now).state.AllDone(st)
    decreases 3 - Rank(stage)
  {
    StageEffect(stage, s, now);
    var done := StageFrom(stage, s, 0, now);
    if stage != InstanceStage {
      var next := Next(stage);
      RunFromCompleted(next, done.state, now);
      RunFromKeeps(next, done.state, now);
      var r := RunFrom(next, done.state, now);
      forall st | Rank(st) >= Rank(stage) ensures r.state.AllDone(st) {
        if st != stage { assert Rank(st) >= Rank(next); }
      }
    }
  }

  /** A run that aborts names a stage from `stage` on, with the failed
      items; the stages from `stage` up to it are complete and the stages
      after it never ran. */
  lemma {:induction false} RunFromAborted(stage: Stage, s: SeedState, now: Date)
    requires s.db.Valid() && forall st :: Rank(st) >= Rank(stage) ==> s.AllPending(st)
    requires RunFrom(stage, s, now).result.Aborted?
    ensures var r := RunFrom(stage, s, now);
            && r.result.failed != [] && Rank(r.result.stage) >= Rank(stage)
            && (forall st :: Rank(stage) <= Rank(st) < Rank(r.result.stage) ==> r.state.AllDone(st))
            && (forall st :: Rank(st) > Rank(r.result.stage) ==> r.state.AllPending(st))
    decreases 3 - Rank(stage)
  {
    StageEffect(stage, s, now);
    var done := StageFrom(stage, s, 0, now);
    if done.failed == [] {
      var next := Next(stage);
      RunFromAborted(next, done.state, now);
      RunFromKeeps(next, done.state, now);
      var r := RunFrom(next, done.state, now);
      forall st | Rank(stage) <= Rank(st) < Rank(r.result.stage) ensures r.state.AllDone(st) {
        if st != stage { assert Rank(st) >= Rank(next); }
      }
    }
  }

  /** Stages run strictly in order: when the run completes every slot of
      every stage holds a document, so every slot a stage read had been
      written by an earlier stage; when it aborts, the stages before the
      failing one are complete and the stages after it never ran. */
  lemma SeedStageOrder(s: SeedState, now: Date)
    requires s.db.Valid() && forall stage :: s.AllPending(stage)
    ensures var r := Seed(s, now);
            && (forall st :: r.state.Count(st) == s.Count(st))
            && (r.result.Completed? ==> forall st :: r.state.AllDone(st))
            && (r.result.Aborted? ==>
                  && r.result.failed != []
                  && (forall st :: Rank(st) < Rank(r.result.stage) ==> r.state.AllDone(st))
                  && (forall st :: Rank(st) > Rank(r.result.stage) ==> r.state.AllPending(st)))
  {
    RunFromKeeps(GenreStage, s, now);
    if Seed(s, now).result.Completed? {
      RunFromCompleted(GenreStage, s, now);
    } else {
      RunFromAborted(GenreStage, s, now);
    }
  }

  /** Every reference the store holds resolves, and so does every slot. */
  ghost predicate Integrity(s: SeedState) {
    s.db.Valid() && s.SlotsResolve() && RefsResolve(s.db)
  }

  lemma GenreStepKeepsIntegrity(s: SeedState, i: nat)
    requires Integrity(s) && i < |s.genres| && s.genres[i].Pending?
    ensures Integrity(GenreStep(s, i).state)
  {
  }

  lemma AuthorStepKeepsIntegrity(s: SeedState, i: nat)
    requires Integrity(s) && i < |s.authors| && s.authors[i].Pending?
    ensures Integrity(AuthorStep(s, i).state)
  {
  }

  /** A stored book's genres are documents of filled genre slots, so they
      are in the store. */
  lemma BookStepKeepsIntegrity(s: SeedState, i: nat)
    requires Integrity(s) && i < |s.books| && s.books[i].Pending?
    ensures Integrity(BookStep(s, i).state)
  {
    var r := BookStep(s, i);
    if r.ok {
      var e := s.books[i].entry;
      var genre := BookGenres(s.genres, e.genre).value;
      forall g | g in genre ensures g in s.db.genres {
        var j :| 0 <= j < |genre| && genre[j] == g;
        assert Resolve(s.genres, e.genre.value[j]) == Some(g);
      }
    }
  }

  lemma InstanceStepKeepsIntegrity(s: SeedState, i: nat, now: Date)
    requires Integrity(s) && i < |s.instances| && s.instances[i].Pending?
    ensures Integrity(InstanceStep(s, i, now).state)
  {
  }

  lemma ItemStepKeepsIntegrity(stage: Stage, s: SeedState, i: nat, now: Date)
    requires Integrity(s) && i < s.Count(stage) && !s.Done(stage, i)
    ensures Integrity(ItemStep(stage, s, i, now).state)
  {
    match stage {
      case GenreStage => GenreStepKeepsIntegrity(s, i);
      case AuthorStage => AuthorStepKeepsIntegrity(s, i);
      case BookStage => BookStepKeepsIntegrity(s, i);
      case InstanceStage => InstanceStepKeepsIntegrity(s, i, now);
    }
  }

  lemma {:induction false} StageFromKeepsIntegrity(stage: Stage, s: SeedState, i: nat, now: Date)
    requires Integrity(s) && i <= s.Count(stage)
    requires forall j :: i <= j < s.Count(stage) ==> !s.Done(stage, j)
    ensures Integrity(StageFrom(stage, s, i, now).state)
    decreases s.Count(stage) - i
  {
    if i < s.Count(stage) {
      var step := ItemStep(stage, s, i, now);
      ItemStepKeepsIntegrity(stage, s, i, now);
      ItemStepWritesOwnSlot(stage, s, i, now);
      SameSlotDone(stage, s, step.state, i + 1, s.Count(stage));
      StageFromKeepsIntegrity(stage, step.state, i + 1, now);
    }
  }

  lemma {:induction false} RunFromKeepsIntegrity(stage: Stage, s: SeedState, now: Date)
    requires Integrity(s) && forall st :: Rank(st) >= Rank(stage) ==> s.AllPending(st)
    ensures Integrity(RunFrom(stage, s, now).state)
    decreases 3 - Rank(stage)
  {
    StageEffect(stage, s, now);
    StageFromKeepsIntegrity(stage, s, 0, now);
    var done := StageFrom(stage, s, 0, now);
    if done.failed == [] && stage != InstanceStage {
      RunFromKeepsIntegrity(Next(stage), done.state, now);
    }
  }

  /** Seeding never leaves a dangling reference: started on a store whose
      references resolve, it ends (completed or aborted) on one whose
      references resolve. */
  lemma SeedKeepsIntegrity(db: Db, d: Data, now: Date)
    requires db.Valid() && RefsResolve(db)
    ensures RefsResolve(Seed(Start(db, d), now).state.db)
  {
    var s := Start(db, d);
    assert s.SlotsResolve();
    RunFromKeepsIntegrity(GenreStage, s, now);
  }

  /** The genre items from `i` on are all still to run. */
  predicate GenresPending(s: SeedState, i: nat) {
    i <= |s.genres| && forall j :: i <= j < |s.genres| ==> s.genres[j].Pending?
  }

  /** Re-seeding genres that are all stored already (up to case) adds
      nothing: every item finds its genre, and the store is unchanged. */
  lemma {:induction false} GenreStageAllStored(s: SeedState, i: nat, now: Date)
    requires s.db.Valid() && GenresPending(s, i)
    requires forall j :: i <= j < |s.genres| ==> GenresNamed(s.db.genres, s.genres[j].entry.name) != {}
    ensures var r := StageFrom(GenreStage, s, i, now);
            r.failed == [] && r.state.db == s.db
    decreases |s.genres| - i
  {
    if i < |s.genres| {
      GenreStageStep(s, i, now);
      GenreStepFinds(s, i);
      GenreStageAllStored(GenreStep(s, i).state, i + 1, now);
    }
  }

  /** One genre item whose name is stored already (up to case): it
      succeeds, leaves the store alone and writes only its own slot. */
  lemma GenreStepFinds(s: SeedState, i: nat)
    requires s.db.Valid() && GenresPending(s, i) && i < |s.genres|
    requires GenresNamed(s.db.genres, s.genres[i].entry.name) != {}
    ensures var r := GenreStep(s, i);
            && r.ok && r.state.db == s.db && GenresPending(r.state, i + 1)
            && forall j :: i < j < |s.genres| ==> r.state.genres[j] == s.genres[j]
  {
  }

  /** One genre item the schema accepts: it succeeds, keeps every stored
      genre, adds at most one, and its slot names a genre stored under its
      name (up to case). */
  lemma GenreStepStores(s: SeedState, i: nat)
    requires s.db.Valid() && GenresPending(s, i) && i < |s.genres|
    requires GenreSchemaOk(Genre(s.genres[i].entry.name))
    ensures var r := GenreStep(s, i);
            && r.ok && GenresPending(r.state, i + 1)
            && (forall j :: i < j < |s.genres| ==> r.state.genres[j] == s.genres[j])
            && s.db.genres.Keys <= r.state.db.genres.Keys
            && |r.state.db.genres| <= |s.db.genres| + 1
            && GenresNamed(r.state.db.genres, s.genres[i].entry.name) != {}
  {
    var r := GenreStep(s, i);
    assert r.state.genres[i].id in GenresNamed(r.state.db.genres, s.genres[i].entry.name);
  }

  /** One step of the genre stage. */
  lemma GenreStageStep(s: SeedState, i: nat, now: Date)
    requires s.db.Valid() && GenresPending(s, i) && i < |s.genres|
    ensures var step := GenreStep(s, i);
            && GenresPending(step.state, i + 1)
            && var rest := StageFrom(GenreStage, step.state, i + 1, now);
               StageFrom(GenreStage, s, i, now) == StageResult(rest.state, if step.ok then rest.failed else [i] + rest.failed)
  {
    StageFromStep(GenreStage, s, i, now);
  }

  /** A genre stored before the genre stage is still stored, unchanged,
      after it. */
  lemma {:induction false} GenreStageKeeps(s: SeedState, i: nat, now: Date, id: Id)
    requires s.db.Valid() && GenresPending(s, i) && id in s.db.genres
    ensures var r := StageFrom(GenreStage, s, i, now);
            id in r.state.db.genres && r.state.db.genres[id] == s.db.genres[id]
    decreases |s.genres| - i
  {
    if i < |s.genres| {
      GenreStageStep(s, i, now);
      GenreStageKeeps(GenreStep(s, i).state, i + 1, now, id);
    }
  }

  /** Every genre item the schema accepts succeeds; the genres stored
      before are still there, at most one genre per item was added, and
      nothing else in the store changes. */
  lemma {:induction false} GenreStageGrows(s: SeedState, i: nat, now: Date)
    requires s.db.Valid() && GenresPending(s, i)
    requires forall j :: i <= j < |s.genres| ==> GenreSchemaOk(Genre(s.genres[j].entry.name))
    ensures var r := StageFrom(GenreStage, s, i, now);
            && r.failed == []
            && s.db.genres.Keys <= r.state.db.genres.Keys
            && |r.state.db.genres| <= |s.db.genres| + (|s.genres| - i)
            && r.state.db.authors == s.db.authors && r.state.db.books == s.db.books
            && r.state.db.instances == s.db.instances
    decreases |s.genres| - i
  {
    if i < |s.genres| {
      GenreStageStep(s, i, now);
      var step := GenreStep(s, i);
      GenreStepStores(s, i);
      GenreStageGrows(step.state, i + 1, now);
    }
  }

  /** Afterwards every genre item's name has a stored genre, up to case. */
  lemma {:induction false} GenreStageNamesStored(s: SeedState, i: nat, now: Date)
    requires s.db.Valid() && GenresPending(s, i)
    requires forall j :: i <= j < |s.genres| ==> GenreSchemaOk(Genre(s.genres[j].entry.name))
    ensures var r := StageFrom(GenreStage, s, i, now);
            forall j :: i <= j < |s.genres| ==> GenresNamed(r.state.db.genres, s.genres[j].entry.name) != {}
    decreases |s.genres| - i
  {
    if i < |s.genres| {
      GenreStageStep(s, i, now);
      var step := GenreStep(s, i);
      GenreStepStores(s, i);
      GenreStageNamesStored(step.state, i + 1, now);
      var r := StageFrom(GenreStage, step.state, i + 1, now);
      var id := step.state.genres[i].id;
      GenreStageKeeps(step.state, i + 1, now, id);
      assert id in GenresNamed(r.state.db.genres, s.genres[i].entry.name);
      forall j | i < j < |s.genres| ensures GenresNamed(r.state.db.genres, s.genres[j].entry.name) != {} {
        assert step.state.genres[j] == s.genres[j];
      }
    }
  }

  /** The genre stage from `i` on leaves slot `k` before `i` alone. */
  lemma GenreStageKeepsSlot(s: SeedState, i: nat, now: Date, k: nat)
    requires s.db.Valid() && GenresPending(s, i) && k < i && k < |s.genres|
    ensures var r := StageFrom(GenreStage, s, i, now);
            |r.state.genres| == |s.genres| && r.state.genres[k] == s.genres[k]
  {
    StageFromKeeps(GenreStage, s, i, now);
    assert SameSlot(GenreStage, s, StageFrom(GenreStage, s, i, now).state, k);
  }

  /** After the genre stage every slot holds a stored genre whose name
      equals its entry's name up to case: the one found, or the one created. */
  lemma {:induction false} GenreStageSlots(s: SeedState, i: nat, now: Date)
    requires s.db.Valid() && GenresPending(s, i)
    requires forall j :: i <= j < |s.genres| ==> GenreSchemaOk(Genre(s.genres[j].entry.name))
    ensures var r := StageFrom(GenreStage, s, i, now);
            && |r.state.genres| == |s.genres|
            && forall j :: i <= j < |s.genres| ==>
                 && r.state.genres[j].Doc? && r.state.genres[j].id in r.state.db.genres
                 && SameIgnoringCase(r.state.db.genres[r.state.genres[j].id].name, s.genres[j].entry.name)
    decreases |s.genres| - i
  {
    if i < |s.genres| {
      GenreStageStep(s, i, now);
      var step := GenreStep(s, i);
      GenreStepStores(s, i);
      GenreStageSlots(step.state, i + 1, now);
      GenreStageKeepsSlot(step.state, i + 1, now, i);
      GenreStageKeeps(step.state, i + 1, now, step.state.genres[i].id);
    }
  }

  /** An author entry whose names the schema accepts. */
  predicate AuthorReady(e: AuthorEntry) {
    1 <= |e.firstName| <= 100 && 1 <= |e.familyName| <= 100
  }

  /** Seeding authors the schema accepts adds one author per item and
      touches nothing else in the store. */
  lemma {:induction false} AuthorStageAdds(s: SeedState, i: nat, now: Date)
    requires s.db.Valid() && i <= |s.authors|
    requires forall j :: i <= j < |s.authors| ==> s.authors[j].Pending? && AuthorReady(s.authors[j].entry)
    ensures var r := StageFrom(AuthorStage, s, i, now);
            && r.failed == []
            && |r.state.db.authors| == |s.db.authors| + (|s.authors| - i)
            && r.state.db.genres == s.db.genres && r.state.db.books == s.db.books
            && r.state.db.instances == s.db.instances
    decreases |s.authors| - i
  {
    if i < |s.authors| {
      StageFromStep(AuthorStage, s, i, now);
      var step := AuthorStep(s, i);
      forall j | i < j < |s.authors| ensures step.state.authors[j] == s.authors[j] { }
      AuthorStageAdds(step.state, i + 1, now);
    }
  }

  /** A book entry whose author slot and genre slots hold documents and
      whose required strings are present. */
  predicate BookReady(s: SeedState, e: BookEntry) {
    Resolve(s.authors, e.author).Some? && BookGenres(s.genres, e.genre).Some?
    && e.title != [] && e.summary != [] && e.isbn != []
  }

  /** Seeding books whose references all resolve adds one book per item
      and touches nothing else in the store. */
  lemma {:induction false} BookStageAdds(s: SeedState, i: nat, now: Date)
    requires s.db.Valid() && i <= |s.books|
    requires forall j :: i <= j < |s.books| ==> s.books[j].Pending? && BookReady(s, s.books[j].entry)
    ensures var r := StageFrom(BookStage, s, i, now);
            && r.failed == []
            && |r.state.db.books| == |s.db.books| + (|s.books| - i)
            && r.state.db.genres == s.db.genres && r.state.db.authors == s.db.authors
            && r.state.db.instances == s.db.instances
    decreases |s.books| - i
  {
    if i < |s.books| {
      StageFromStep(BookStage, s, i, now);
      var step := BookStep(s, i);
      forall j | i < j < |s.books| ensures step.state.books[j] == s.books[j] { }
      BookStageAdds(step.state, i + 1, now);
    }
  }

  /** An instance entry whose book slot holds a document, whose status the
      schema accepts and whose imprint is present. */
  predicate InstanceReady(s: SeedState, e: InstanceEntry) {
    Resolve(s.books, e.book).Some? && InstanceStatus(e.status).Some? && e.imprint != []
  }

  /** One step of the book-instance stage. */
  lemma InstanceStageStep(s: SeedState, i: nat, now: Date)
    requires s.db.Valid() && i < |s.instances| && forall j :: i <= j < |s.instances| ==> s.instances[j].Pending?
    ensures var step := InstanceStep(s, i, now);
            && (forall j :: i < j < |s.instances| ==> step.state.instances[j] == s.instances[j])
            && var rest := StageFrom(InstanceStage, step.state, i + 1, now);
               StageFrom(InstanceStage, s, i, now) == StageResult(rest.state, if step.ok then rest.failed else [i] + rest.failed)
  {
    StageFromStep(InstanceStage, s, i, now);
  }

  /** Seeding book instances whose books resolve adds one instance per
      item and touches nothing else in the store. */
  lemma {:induction false} InstanceStageAdds(s: SeedState, i: nat, now: Date)
    requires s.db.Valid() && i <= |s.instances|
    requires forall j :: i <= j < |s.instances| ==> s.instances[j].Pending? && InstanceReady(s, s.instances[j].entry)
    ensures var r := StageFrom(InstanceStage, s, i, now);
            && r.failed == []
            && |r.state.db.instances| == |s.db.instances| + (|s.instances| - i)
            && r.state.db.genres == s.db.genres && r.state.db.authors == s.db.authors
            && r.state.db.books == s.db.books
    decreases |s.instances| - i
  {
    if i < |s.instances| {
      InstanceStageStep(s, i, now);
      var step := InstanceStep(s, i, now);
      InstanceStageAdds(step.state, i + 1, now);
    }
  }

  /** A data file every document of which the schemas accept and whose
      indexes all point into their arrays. */
  predicate Seedable(d: Data) {
    && IndexesInRange(d) && FieldsOk(d)
    && forall g :: 0 <= g < |d.genres| ==> GenreSchemaOk(Genre(d.genres[g].name))
  }

  /** Once the genre and author stages are complete, every book entry of a
      seedable file is ready. */
  lemma BooksReady(s: SeedState, d: Data)
    requires Seedable(d) && |s.genres| == |d.genres| && |s.authors| == |d.authors|
    requires s.AllDone(GenreStage) && s.AllDone(AuthorStage) && s.books == Pendings(d.books)
    ensures forall j :: 0 <= j < |s.books| ==> s.books[j].Pending? && BookReady(s, s.books[j].entry)
  {
    forall j | 0 <= j < |s.books| ensures BookReady(s, s.books[j].entry) {
      var e := d.books[j];
      assert s.Done(AuthorStage, e.author);
      if e.genre.Given? {
        forall k | k in e.genre.value ensures Resolve(s.genres, k).Some? {
          assert s.Done(GenreStage, k);
        }
      }
    }
  }

  /** Once the book stage is complete, every instance entry of a seedable
      file is ready. */
  lemma InstancesReady(s: SeedState, d: Data)
    requires Seedable(d) && |s.books| == |d.books|
    requires s.AllDone(BookStage) && s.instances == Pendings(d.instances)
    ensures forall j :: 0 <= j < |s.instances| ==> s.instances[j].Pending? && InstanceReady(s, s.instances[j].entry)
  {
    forall j | 0 <= j < |s.instances| ensures InstanceReady(s, s.instances[j].entry) {
      assert s.Done(BookStage, d.instances[j].book);
    }
  }

  /** The book stage of a seedable file, once genres and authors are in. */
  lemma BookStageOfSeedable(s: SeedState, d: Data, now: Date)
    requires s.db.Valid() && Seedable(d) && |s.genres| == |d.genres| && |s.authors| == |d.authors|
    requires s.AllDone(GenreStage) && s.AllDone(AuthorStage)
    requires s.books == Pendings(d.books) && s.instances == Pendings(d.instances)
    ensures var b := StageFrom(BookStage, s, 0, now);
            && b.failed == [] && b.state.AllDone(BookStage) && |b.state.books| == |d.books|
            && b.state.instances == s.instances
            && b.state.db.genres == s.db.genres && b.state.db.authors == s.db.authors
            && |b.state.db.books| == |s.db.books| + |d.books| && b.state.db.instances == s.db.instances
  {
    BooksReady(s, d);
    BookStageAdds(s, 0, now);
    StageEffect(BookStage, s, now);
    StageFromKeeps(BookStage, s, 0, now);
  }

  /** The instance stage of a seedable file completes once the books are in. */
  lemma RunFromInstances(s: SeedState, d: Data, now: Date)
    requires s.db.Valid() && Seedable(d) && |s.books| == |d.books|
    requires s.AllDone(BookStage) && s.instances == Pendings(d.instances)
    ensures var r := RunFrom(InstanceStage, s, now);
            && r.result == Completed
            && r.state.db.genres == s.db.genres && r.state.db.authors == s.db.authors
            && r.state.db.books == s.db.books
            && |r.state.db.instances| == |s.db.instances| + |d.instances|
  {
    InstancesReady(s, d);
    InstanceStageAdds(s, 0, now);
    StageEffect(InstanceStage, s, now);
  }

  /** The book and instance stages of a seedable file complete. */
  lemma RunFromBooks(s: SeedState, d: Data, now: Date)
    requires s.db.Valid() && Seedable(d) && |s.genres| == |d.genres| && |s.authors| == |d.authors|
    requires s.AllDone(GenreStage) && s.AllDone(AuthorStage)
    requires s.books == Pendings(d.books) && s.instances == Pendings(d.instances)
    ensures var r := RunFrom(BookStage, s, now);
            && r.result == Completed
            && r.state.db.genres == s.db.genres && r.state.db.authors == s.db.authors
            && |r.state.db.books| == |s.db.books| + |d.books|
            && |r.state.db.instances| == |s.db.instances| + |d.instances|
  {
    BookStageOfSeedable(s, d, now);
    StageEffect(BookStage, s, now);
    RunFromInstances(StageFrom(BookStage, s, 0, now).state, d, now);
  }

  /** The author stage and the stages after it complete on a seedable file. */
  lemma RunFromAuthors(s: SeedState, d: Data, now: Date)
    requires s.db.Valid() && Seedable(d) && |s.genres| == |d.genres| && s.AllDone(GenreStage)
    requires s.authors == Pendings(d.authors) && s.books == Pendings(d.books)
    requires s.instances == Pendings(d.instances)
    ensures var r := RunFrom(AuthorStage, s, now);
            && r.result == Completed
            && r.state.db.genres == s.db.genres
            && |r.state.db.authors| == |s.db.authors| + |d.authors|
            && |r.state.db.books| == |s.db.books| + |d.books|
            && |r.state.db.instances| == |s.db.instances| + |d.instances|
  {
    AuthorStageAdds(s, 0, now);
    StageEffect(AuthorStage, s, now);
    StageFromKeeps(AuthorStage, s, 0, now);
    var a := StageFrom(AuthorStage, s, 0, now);
    RunFromBooks(a.state, d, now);
  }

  /** The genre stage of a seedable file. */
  lemma GenreStageOfSeedable(db: Db, d: Data, now: Date)
    requires db.Valid() && Seedable(d)
    ensures var g := StageFrom(GenreStage, Start(db, d), 0, now);
            && g.failed == [] && g.state.AllDone(GenreStage) && |g.state.genres| == |d.genres|
            && g.state.authors == Pendings(d.authors) && g.state.books == Pendings(d.books)
            && g.state.instances == Pendings(d.instances)
            && db.genres.Keys <= g.state.db.genres.Keys
            && |g.state.db.genres| <= |db.genres| + |d.genres|
            && (forall j :: 0 <= j < |d.genres| ==> GenresNamed(g.state.db.genres, d.genres[j].name) != {})
            && g.state.db.authors == db.authors && g.state.db.books == db.books
            && g.state.db.instances == db.instances
  {
    var s := Start(db, d);
    GenreStageGrows(s, 0, now);
    GenreStageNamesStored(s, 0, now);
    StageEffect(GenreStage, s, now);
    StageFromKeeps(GenreStage, s, 0, now);
  }

  /** Seeding a seedable file completes, into any store: it adds one
      author, one book and one instance per entry; it adds at most one
      genre per entry and keeps the genres already stored, after which
      every genre entry's name is stored (up to case). */
  lemma SeedCompletes(db: Db, d: Data, now: Date)
    requires db.Valid() && Seedable(d)
    ensures var r := Seed(Start(db, d), now);
            && r.result == Completed
            && db.genres.Keys <= r.state.db.genres.Keys
            && |r.state.db.genres| <= |db.genres| + |d.genres|
            && (forall g :: 0 <= g < |d.genres| ==> GenresNamed(r.state.db.genres, d.genres[g].name) != {})
            && |r.state.db.authors| == |db.authors| + |d.authors|
            && |r.state.db.books| == |db.books| + |d.books|
            && |r.state.db.instances| == |db.instances| + |d.instances|
  {
    var s := Start(db, d);
    GenreStageOfSeedable(db, d, now);
    StageEffect(GenreStage, s, now);
    var g := StageFrom(GenreStage, s, 0, now);
    RunFromAuthors(g.state, d, now);
  }

  /** Re-seeding a file whose genre names are all stored already (up to
      case) leaves the genres as they were. */
  lemma SeedGenresAllStored(db: Db, d: Data, now: Date)
    requires db.Valid() && Seedable(d)
    requires forall g :: 0 <= g < |d.genres| ==> GenresNamed(db.genres, d.genres[g].name) != {}
    ensures Seed(Start(db, d), now).state.db.genres == db.genres
  {
    var s := Start(db, d);
    GenreStageAllStored(s, 0, now);
    GenreStageOfSeedable(db, d, now);
    StageEffect(GenreStage, s, now);
    RunFromAuthors(StageFrom(GenreStage, s, 0, now).state, d, now);
  }

  /** The elements of `ids`. */
  function SetOf(ids: seq<Id>): (r: set<Id>)
    ensures forall x :: x in r <==> x in ids
  {
    if ids == [] then {} else {ids[0]} + SetOf(ids[1..])
  }

  /** A sequence without repeats has as many distinct elements as entries. */
  lemma {:induction false} DistinctCard(ids: seq<Id>)
    requires forall j, k :: 0 <= j < k < |ids| ==> ids[j] != ids[k]
    ensures |SetOf(ids)| == |ids|
  {
    if ids != [] {
      var rest := ids[1..];
      forall j, k | 0 <= j < k < |rest| ensures rest[j] != rest[k] {
        assert rest[j] == ids[j + 1] && rest[k] == ids[k + 1];
      }
      DistinctCard(rest);
      assert ids[0] !in rest by {
        forall k | 0 <= k < |rest| ensures rest[k] != ids[0] {
          assert rest[k] == ids[k + 1];
        }
      }
    }
  }

  /** Adding `ids`, none of them in `before`, all of them in `after`,
      gives `after` at least one element per id beyond `before`. */
  lemma AddedCount(before: set<Id>, after: set<Id>, ids: seq<Id>)
    requires before <= after
    requires forall j, k :: 0 <= j < k < |ids| ==> ids[j] != ids[k]
    requires forall j :: 0 <= j < |ids| ==> ids[j] in after && ids[j] !in before
    ensures |after| >= |before| + |ids|
  {
    DistinctCard(ids);
    var added := SetOf(ids);
    assert before * added == {};
    assert before + added <= after;
    assert after == (before + added) + (after - (before + added));
  }

  /** The identifiers a list of filled slots holds. */
  function DocIds<E>(slots: seq<Slot<E>>): (r: seq<Id>)
    requires forall j :: 0 <= j < |slots| ==> slots[j].Doc?
    ensures |r| == |slots| && forall j :: 0 <= j < |slots| ==> r[j] == slots[j].id
  {
    seq(|slots|, j requires 0 <= j < |slots| => slots[j].id)
  }

  /** GenreStageKeeps for an id that may or may not be stored. */
  lemma GenreStageKeepsAny(s: SeedState, i: nat, now: Date, id: Id)
    requires s.db.Valid() && GenresPending(s, i)
    ensures var r := StageFrom(GenreStage, s, i, now);
            id in s.db.genres ==> id in r.state.db.genres && r.state.db.genres[id] == s.db.genres[id]
  {
    if id in s.db.genres {
      GenreStageKeeps(s, i, now, id);
    }
  }

  /** Genre names pairwise different up to case land in different slots. */
  lemma GenreSlotsDistinct(db: Db, d: Data, now: Date)
    requires db.Valid() && Seedable(d) && GenreNamesOk(d)
    ensures var r := StageFrom(GenreStage, Start(db, d), 0, now).state;
            && |r.genres| == |d.genres| && (forall j :: 0 <= j < |r.genres| ==> r.genres[j].Doc?)
            && forall j, k :: 0 <= j < k < |r.genres| ==> r.genres[j].id != r.genres[k].id
  {
    var s := Start(db, d);
    GenresPendingAtStart(s);
    GenreStageSlots(s, 0, now);
    var r := StageFrom(GenreStage, s, 0, now).state;
    forall j, k | 0 <= j < k < |d.genres| ensures r.genres[j].id != r.genres[k].id {
      assert Fold(r.db.genres[r.genres[j].id].name) == Fold(d.genres[j].name);
      assert Fold(r.db.genres[r.genres[k].id].name) == Fold(d.genres[k].name);
    }
  }

  /** A genre name not stored before lands on a genre not stored before. */
  lemma GenreSlotsNew(db: Db, d: Data, now: Date)
    requires db.Valid() && Seedable(d)
    requires forall g :: 0 <= g < |d.genres| ==> GenresNamed(db.genres, d.genres[g].name) == {}
    ensures var r := StageFrom(GenreStage, Start(db, d), 0, now).state;
            && |r.genres| == |d.genres|
            && forall j :: 0 <= j < |r.genres| ==>
                 r.genres[j].Doc? && r.genres[j].id in r.db.genres && r.genres[j].id !in db.genres
  {
    var s := Start(db, d);
    GenresPendingAtStart(s);
    GenreStageSlots(s, 0, now);
    var r := StageFrom(GenreStage, s, 0, now).state;
    forall j | 0 <= j < |d.genres| ensures r.genres[j].id !in db.genres {
      var x := r.genres[j].id;
      GenreStageKeepsAny(s, 0, now, x);
      assert x !in GenresNamed(db.genres, d.genres[j].name);
    }
  }

  /** The genre stage of a seedable file none of whose genre names is
      stored, the names pairwise different up to case, adds one genre per
      entry. */
  lemma GenreStageAllNew(db: Db, d: Data, now: Date)
    requires db.Valid() && Seedable(d) && GenreNamesOk(d)
    requires forall g :: 0 <= g < |d.genres| ==> GenresNamed(db.genres, d.genres[g].name) == {}
    ensures |StageFrom(GenreStage, Start(db, d), 0, now).state.db.genres| == |db.genres| + |d.genres|
  {
    var s := Start(db, d);
    GenresPendingAtStart(s);
    GenreStageGrows(s, 0, now);
    GenreSlotsDistinct(db, d, now);
    GenreSlotsNew(db, d, now);
    var r := StageFrom(GenreStage, s, 0, now).state;
    AddedCount(db.genres.Keys, r.db.genres.Keys, DocIds(r.genres));
  }

  /** Seeding genre names none of which is stored, pairwise different up
      to case, adds one genre per entry. */
  lemma SeedGenresAllNew(db: Db, d: Data, now: Date)
    requires db.Valid() && Seedable(d) && GenreNamesOk(d)
    requires forall g :: 0 <= g < |d.genres| ==> GenresNamed(db.genres, d.genres[g].name) == {}
    ensures |Seed(Start(db, d), now).state.db.genres| == |db.genres| + |d.genres|
  {
    var s := Start(db, d);
    GenreStageAllNew(db, d, now);
    GenreStageOfSeedable(db, d, now);
    StageEffect(GenreStage, s, now);
    RunFromAuthors(StageFrom(GenreStage, s, 0, now).state, d, now);
  }

  /** The indexes `lo` up to `hi`, in order. */
  function Span(lo: nat, hi: nat): (r: seq<nat>)
    requires lo <= hi
    ensures |r| == hi - lo && forall k :: 0 <= k < |r| ==> r[k] == lo + k
    decreases hi - lo
  {
    if lo == hi then [] else [lo] + Span(lo + 1, hi)
  }

  /** The genre stage with `genreCreate` as written. */
  function GenreStageAsWritten(s: SeedState, i: nat): (r: StageResult)
    requires GenresPending(s, i)
    decreases |s.genres| - i
  {
    if i == |s.genres| then StageResult(s, [])
    else
      var step := GenreStepAsWritten(s, i);
      var rest := GenreStageAsWritten(step.state, i + 1);
      StageResult(rest.state, if step.ok then rest.failed else [i] + rest.failed)
  }

  /** As written, every genre item fails and the store is untouched. */
  lemma {:induction false} GenreStageAsWrittenFailsAll(s: SeedState, i: nat)
    requires GenresPending(s, i)
    ensures GenreStageAsWritten(s, i) == StageResult(s, Span(i, |s.genres|))
    decreases |s.genres| - i
  {
    if i < |s.genres| {
      GenreStageAsWrittenFailsAll(s, i + 1);
    }
  }

  lemma GenresPendingAtStart(s: SeedState)
    requires s.AllPending(GenreStage)
    ensures GenresPending(s, 0)
  {
    forall j | 0 <= j < |s.genres| ensures s.genres[j].Pending? {
      assert !s.Done(GenreStage, j);
    }
  }

  /** `main` with `genreCreate` as written. */
  function SeedAsWritten(s: SeedState, now: Date): (r: SeedRun)
    requires s.db.Valid() && forall stage :: s.AllPending(stage)
  {
    GenresPendingAtStart(s);
    GenreStageAsWrittenFailsAll(s, 0);
    var g := GenreStageAsWritten(s, 0);
    if g.failed != [] then SeedRun(g.state, Aborted(GenreStage, g.failed))
    else RunFrom(AuthorStage, g.state, now)
  }

  /** As written, `main` stops after the genre stage for any data file that
      has a genre, with every genre item failed and nothing stored, while
      the corrected lookup seeds every seedable file completely. */
  lemma SeedAsWrittenAborts(db: Db, d: Data, now: Date)
    requires db.Valid() && |d.genres| > 0
    ensures SeedAsWritten(Start(db, d), now) == SeedRun(Start(db, d), Aborted(GenreStage, Span(0, |d.genres|)))
    ensures Seedable(d) ==> Seed(Start(db, d), now).result == Completed
  {
    GenreStageAsWrittenFailsAll(Start(db, d), 0);
    if Seedable(d) {
      SeedCompletes(db, d, now);
    }
  }

  /** Under loose equality a book entry listing only genre 0 has its
      genre list dropped: the book is stored with no genre even when genre
      slot 0 holds a document, while a list naming genre 1 keeps it. */
  lemma GenreZeroDropped(s: SeedState, i: nat)
    requires s.db.Valid() && i < |s.books| && s.books[i].Pending?
    requires s.books[i].entry.genre == Given([0]) && BookStep(s, i).ok
    ensures var r := BookStep(s, i);
            r.state.db.books[r.state.books[i].id].genre == []
  {
  }

  lemma GenreOneKept(s: SeedState, i: nat)
    requires s.db.Valid() && i < |s.books| && s.books[i].Pending?
    requires s.books[i].entry.genre == Given([1]) && BookStep(s, i).ok
    ensures var r := BookStep(s, i);
            r.state.db.books[r.state.books[i].id].genre == [s.genres[1].id]
  {
    assert Resolve(s.genres, 1) == Some(BookGenres(s.genres, Given([1])).value[0]);
  }

  /** The seeder's run: the store and the four arrays, updated in place. */
  class Seeder {
    const store: Store
    var genres: seq<Slot<GenreEntry>>
    var authors: seq<Slot<AuthorEntry>>
    var books: seq<Slot<BookEntry>>
    var instances: seq<Slot<InstanceEntry>>

    function State(): SeedState
      reads this, store
    {
      SeedState(store.State(), genres, authors, books, instances)
    }

    constructor (store: Store, d: Data)
      ensures this.store == store && State() == Start(store.State(), d)
    {
      this.store := store;
      genres, authors, books, instances := Pendings(d.genres), Pendings(d.authors), Pendings(d.books), Pendings(d.instances);
    }

    method GenreCreate(i: nat) returns (ok: bool)
      requires store.Valid() && i < |genres| && genres[i].Pending?
      modifies this, store
      ensures store.Valid() && StepResult(State(), ok) == GenreStep(old(State()), i)
    {
      var name := genres[i].entry.name;
      var existing := FindGenreNamed(store.State(), name);
      if existing.Some? {
        genres := genres[i := Doc(existing.value)];
        return true;
      }
      var id := store.SaveGenre(Genre(name));
      if id.None? {
        return false;
      }
      genres := genres[i := Doc(id.value)];
      ok := true;
    }

    method AuthorCreate(i: nat) returns (ok: bool)
      requires store.Valid() && i < |authors| && authors[i].Pending?
      modifies this, store
      ensures store.Valid() && StepResult(State(), ok) == AuthorStep(old(State()), i)
    {
      var e := authors[i].entry;
      var id := store.SaveAuthor(Author(e.firstName, e.familyName, None, None));
      if id.None? {
        return false;
      }
      authors := authors[i := Doc(id.value)];
      ok := true;
    }

    method BookCreate(i: nat) returns (ok: bool)
      requires store.Valid() && i < |books| && books[i].Pending?
      modifies this, store
      ensures store.Valid() && StepResult(State(), ok) == BookStep(old(State()), i)
    {
      var e := books[i].entry;
      var author := Resolve(authors, e.author);
      var genre := BookGenres(genres, e.genre);
      if author.None? || genre.None? {
        return false;
      }
      var id := store.SaveBook(Book(e.title, e.summary, e.isbn, author.value, genre.value));
      if id.None? {
        return false;
      }
      books := books[i := Doc(id.value)];
      ok := true;
    }

    method BookInstanceCreate(i: nat, now: Date) returns (ok: bool)
      requires store.Valid() && i < |instances| && instances[i].Pending?
      modifies this, store
      ensures store.Valid() && StepResult(State(), ok) == InstanceStep(old(State()), i, now)
    {
      var e := instances[i].entry;
      var book := Resolve(books, e.book);
      var status := InstanceStatus(e.status);
      var dueBack := if e.dueBack.Given? then e.dueBack.value else now;
      if book.None? || status.None? {
        return false;
      }
      var id := store.SaveInstance(BookInstance(book.value, e.imprint, status.value, dueBack));
      if id.None? {
        return false;
      }
      instances := instances[i := Doc(id.value)];
      ok := true;
    }

    method ItemCreate(stage: Stage, i: nat, now: Date) returns (ok: bool)
      requires store.Valid() && i < State().Count(stage) && !State().Done(stage, i)
      modifies this, store
      ensures store.Valid()
      ensures State() == ItemStep(stage, old(State()), i, now).state && ok == ItemStep(stage, old(State()), i, now).ok
    {
      match stage
      case GenreStage => ok := GenreCreate(i);
      case AuthorStage => ok := AuthorCreate(i);
      case BookStage => ok := BookCreate(i);
      case InstanceStage => ok := BookInstanceCreate(i, now);
    }

    /** The creates of items `i` onwards of `stage`, collecting the indexes
        whose create failed. */
    method CreateFrom(stage: Stage, i: nat, now: Date) returns (failed: seq<nat>)
      requires store.Valid() && i <= State().Count(stage)
      requires forall j :: i <= j < State().Count(stage) ==> !State().Done(stage, j)
      modifies this, store
      ensures store.Valid() && StageResult(State(), failed) == StageFrom(stage, old(State()), i, now)
      decreases State().Count(stage) - i
    {
      if i == State().Count(stage) {
        return [];
      }
      ghost var s0 := State();
      StageFromStep(stage, s0, i, now);
      var ok := ItemCreate(stage, i, now);
      var rest := CreateFrom(stage, i + 1, now);
      failed := if ok then rest else [i] + rest;
    }

    /** `createGenres` and its siblings: the create of every item of the
        stage, collecting the indexes whose create failed. */
    method CreateAll(stage: Stage, now: Date) returns (failed: seq<nat>)
      requires store.Valid() && State().AllPending(stage)
      modifies this, store
      ensures store.Valid() && StageResult(State(), failed) == StageFrom(stage, old(State()), 0, now)
    {
      failed := CreateFrom(stage, 0, now);
    }

    /** `main`: the four stages awaited in order. A stage with a failed
        item rejects, and the rejection skips the stages after it. */
    method Run(now: Date) returns (result: SeedResult)
      requires store.Valid() && forall st :: State().AllPending(st)
      modifies this, store
      ensures store.Valid() && SeedRun(State(), result) == Seed(old(State()), now)
    {
      RunFromUnfold(GenreStage, State(), now);
      var failed := CreateAll(GenreStage, now);
      if failed != [] {
        return Aborted(GenreStage, failed);
      }
      RunFromUnfold(AuthorStage, State(), now);
      failed := CreateAll(AuthorStage, now);
      if failed != [] {
        return Aborted(AuthorStage, failed);
      }
      RunFromUnfold(BookStage, State(), now);
      failed := CreateAll(BookStage, now);
      if failed != [] {
        return Aborted(BookStage, failed);
      }
      RunFromUnfold(InstanceStage, State(), now);
      failed := CreateAll(InstanceStage, now);
      if failed != [] {
        return Aborted(InstanceStage, failed);
      }
      result := Completed;
    }
  }
}
