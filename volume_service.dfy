/**
 * `VolumeService`: filling in a volume's missing ISBN form, the ISBN lookup
 * and duplicate guard of `save`, and the author and category searches, over
 * an abstract volume repository.
 */
module VolumeService {
  import opened Wrappers
  import opened Isbn
  import opened Catalog

  // ---------------------------------------------------------------------------
  // The repository
  // ---------------------------------------------------------------------------

  /** The two ISBN indexes of the volume repository (`findByIsbn10`, `findByIsbn13`). */
  datatype VolumeStore = VolumeStore(byIsbn10: map<string, Volume>, byIsbn13: map<string, Volume>)

  /** The repository with nothing registered. */
  function EmptyStore(): VolumeStore {
    VolumeStore(map[], map[])
  }

  /** The exception `save` throws for an ISBN the repository already knows. */
  datatype SaveError = VolumeIsAlreadyRegistered(isbn: string)

  /** The two ISBN fields of a volume, each possibly null. */
  datatype IsbnPair = IsbnPair(isbn10: Option<string>, isbn13: Option<string>)

  /**
   * `volumeRepository.save`: the volume becomes reachable under each ISBN it
   * carries; every other key keeps its volume.
   */
  function Persist(store: VolumeStore, v: Volume, isbns: IsbnPair): (stored: VolumeStore)
    ensures isbns.isbn10.Some? ==> isbns.isbn10.value in stored.byIsbn10 && stored.byIsbn10[isbns.isbn10.value] == v
    ensures isbns.isbn13.Some? ==> isbns.isbn13.value in stored.byIsbn13 && stored.byIsbn13[isbns.isbn13.value] == v
    ensures forall k :: k in store.byIsbn10 && Some(k) != isbns.isbn10 ==> k in stored.byIsbn10 && stored.byIsbn10[k] == store.byIsbn10[k]
    ensures forall k :: k in store.byIsbn13 && Some(k) != isbns.isbn13 ==> k in stored.byIsbn13 && stored.byIsbn13[k] == store.byIsbn13[k]
    ensures stored.byIsbn10.Keys == store.byIsbn10.Keys + (if isbns.isbn10.Some? then {isbns.isbn10.value} else {})
    ensures stored.byIsbn13.Keys == store.byIsbn13.Keys + (if isbns.isbn13.Some? then {isbns.isbn13.value} else {})
  {
    VolumeStore(
      if isbns.isbn10.Some? then store.byIsbn10[isbns.isbn10.value := v] else store.byIsbn10,
      if isbns.isbn13.Some? then store.byIsbn13[isbns.isbn13.value := v] else store.byIsbn13)
  }

  // ---------------------------------------------------------------------------
  // findByIsbn and the duplicate guard
  // ---------------------------------------------------------------------------

  /**
   * `findByIsbn`: a ten-character ISBN is looked up among the ISBN-10s, a
   * thirteen-character one among the ISBN-13s, anything else finds nothing.
   */
  function FindByIsbn(store: VolumeStore, isbn: string): (r: Option<Volume>)
    ensures r.Some? <==> (|isbn| == 10 && isbn in store.byIsbn10) || (|isbn| == 13 && isbn in store.byIsbn13)
    ensures r.Some? && |isbn| == 10 ==> r.value == store.byIsbn10[isbn]
    ensures r.Some? && |isbn| == 13 ==> r.value == store.byIsbn13[isbn]
  {
    if |isbn| == 10 then
      if isbn in store.byIsbn10 then Some(store.byIsbn10[isbn]) else None
    else if |isbn| == 13 then
      if isbn in store.byIsbn13 then Some(store.byIsbn13[isbn]) else None
    else None
  }

  /** `checkDatabaseForVolume`: whether the ISBN is registered under the index its length selects. */
  function CheckDatabaseForVolume(store: VolumeStore, isbn: string): (registered: bool)
    ensures registered <==> (|isbn| == 10 && isbn in store.byIsbn10) || (|isbn| == 13 && isbn in store.byIsbn13)
  {
    FindByIsbn(store, isbn).Some?
  }

  /** A lookup reads only the index its length selects: the other index may change freely. */
  lemma FindByIsbnReadsOneIndex(store: VolumeStore, other: VolumeStore, isbn: string)
    requires |isbn| == 10 ==> store.byIsbn10 == other.byIsbn10
    requires |isbn| == 13 ==> store.byIsbn13 == other.byIsbn13
    ensures FindByIsbn(store, isbn) == FindByIsbn(other, isbn)
  {
  }

  // ---------------------------------------------------------------------------
  // processIsbns
  // ---------------------------------------------------------------------------

  /**
   * The ISBN fields `processIsbns` leaves on a volume queried by `isbn`: a
   * field already set is never overwritten, a ten- or thirteen-character
   * query fills its own field and converts into the other one, and any other
   * query length leaves both alone.
   */
  function FillIsbns(isbns: IsbnPair, isbn: string, toIsbn13: string -> Option<string>): (filled: IsbnPair)
    ensures isbns.isbn10.Some? ==> filled.isbn10 == isbns.isbn10
    ensures isbns.isbn13.Some? ==> filled.isbn13 == isbns.isbn13
    ensures |isbn| != 10 && |isbn| != 13 ==> filled == isbns
    ensures |isbn| == 10 && isbns.isbn10.None? ==> filled.isbn10 == Some(isbn)
    ensures |isbn| == 10 && isbns.isbn13.None? ==> filled.isbn13 == toIsbn13(isbn)
    ensures |isbn| == 13 && isbns.isbn13.None? ==> filled.isbn13 == Some(isbn)
    ensures |isbn| == 13 && isbns.isbn10.None? ==> filled.isbn10 == Isbn10Of(isbn)
  {
    if isbns.isbn10.Some? && isbns.isbn13.Some? then isbns
    else if |isbn| == 10 then
      IsbnPair(if isbns.isbn10.None? then Some(isbn) else isbns.isbn10,
               if isbns.isbn13.None? then toIsbn13(isbn) else isbns.isbn13)
    else if |isbn| == 13 then
      IsbnPair(if isbns.isbn10.None? then Isbn10Of(isbn) else isbns.isbn10,
               if isbns.isbn13.None? then Some(isbn) else isbns.isbn13)
    else isbns
  }

  /** The ISBN fields of a volume as a value. */
  function IsbnsOf(v: Volume): (isbns: IsbnPair)
    reads v
  {
    IsbnPair(v.isbn10, v.isbn13)
  }

  /**
   * `processIsbns`: fills in place whichever ISBN field of the fetched volume
   * is missing, converting the queried ISBN with `toIsbn13` (Apache's
   * `convertToISBN13`) or `ConvertToIsbn10`. No other field is written.
   */
  method ProcessIsbns(volumeToSave: Volume, isbn: string, toIsbn13: string -> Option<string>) returns (r: Volume)
    modifies volumeToSave`isbn10, volumeToSave`isbn13
    ensures r == volumeToSave
    ensures IsbnsOf(volumeToSave) == FillIsbns(old(IsbnsOf(volumeToSave)), isbn, toIsbn13)
  {
    if volumeToSave.isbn10.Some? && volumeToSave.isbn13.Some? {
      return volumeToSave;
    }
    var isbnLength := |isbn|;
    if isbnLength == 10 {
      if volumeToSave.isbn10.None? {
        volumeToSave.isbn10 := Some(isbn);
      }
      if volumeToSave.isbn13.None? {
        volumeToSave.isbn13 := toIsbn13(isbn);
      }
    } else if isbnLength == 13 {
      if volumeToSave.isbn13.None? {
        volumeToSave.isbn13 := Some(isbn);
      }
      if volumeToSave.isbn10.None? {
        volumeToSave.isbn10 := ConvertToIsbn10(isbn);
      }
    }
    return volumeToSave;
  }

  /** A volume that already carries both ISBNs comes back unchanged. */
  lemma FillIsbnsKeepsCompletePair(isbns: IsbnPair, isbn: string, toIsbn13: string -> Option<string>)
    requires isbns.isbn10.Some? && isbns.isbn13.Some?
    ensures FillIsbns(isbns, isbn, toIsbn13) == isbns
  {
  }

  /**
   * After filling, the field of the queried kind is set; an all-digit
   * "978" ISBN-13 query leaves both fields set unless its payload is
   * "000000000", which leaves a missing ISBN-10 missing.
   */
  lemma FillIsbnsSetsQueriedField(isbns: IsbnPair, isbn: string, toIsbn13: string -> Option<string>)
    ensures |isbn| == 10 ==> FillIsbns(isbns, isbn, toIsbn13).isbn10.Some?
    ensures |isbn| == 13 ==> FillIsbns(isbns, isbn, toIsbn13).isbn13.Some?
    ensures |isbn| == 13 && AllDigits(isbn) && StartsWith(isbn, "978") && isbn[3..12] != "000000000" ==>
      FillIsbns(isbns, isbn, toIsbn13).isbn10.Some? && FillIsbns(isbns, isbn, toIsbn13).isbn13.Some?
    ensures |isbn| == 13 && StartsWith(isbn, "978") && isbn[3..12] == "000000000" && isbns.isbn10.None? ==>
      FillIsbns(isbns, isbn, toIsbn13).isbn10.None?
  {
    if |isbn| == 13 && AllDigits(isbn) && StartsWith(isbn, "978") {
      Isbn10OfPrefixedDigits(isbn);
    }
    if |isbn| == 13 && StartsWith(isbn, "978") {
      Isbn10OfAbsentIff(isbn);
    }
  }

  /**
   * Filling never pairs the two ISBNs by construction: a fetched ISBN-13 of
   * one book is kept beside the ISBN-10 converted from a different queried
   * book.
   */
  lemma FillIsbnsMayMixEditions(toIsbn13: string -> Option<string>)
    ensures FillIsbns(IsbnPair(None, Some("9780545582933")), "9780975229804", toIsbn13)
      == IsbnPair(Some("097522980X"), Some("9780545582933"))
  {
    Isbn10OfElementsOfStyle();
  }

  // ---------------------------------------------------------------------------
  // save
  // ---------------------------------------------------------------------------

  /**
   * `save` up to the repository write: refuses an ISBN that is already
   * registered; otherwise fills the fetched volume's ISBNs and persists it.
   * The metadata fetch is the `fetched` parameter; author and category
   * resolution and the response mapping are not part of this model.
   */
  method Save(store: VolumeStore, isbn: string, fetched: Volume, toIsbn13: string -> Option<string>)
    returns (r: Result<Volume, SaveError>, stored: VolumeStore)
    modifies fetched`isbn10, fetched`isbn13
    ensures r.Failure? <==> CheckDatabaseForVolume(store, isbn)
    ensures r.Failure? ==> r.error == VolumeIsAlreadyRegistered(isbn) && stored == store
    ensures r.Failure? ==> IsbnsOf(fetched) == old(IsbnsOf(fetched))
    ensures r.Success? ==> r.value == fetched
    ensures r.Success? ==> IsbnsOf(fetched) == FillIsbns(old(IsbnsOf(fetched)), isbn, toIsbn13)
    ensures r.Success? ==> stored == Persist(store, fetched, IsbnsOf(fetched))
  {
    if CheckDatabaseForVolume(store, isbn) {
      return Failure(VolumeIsAlreadyRegistered(isbn)), store;
    }
    var volumeToSave := ProcessIsbns(fetched, isbn, toIsbn13);
    stored := Persist(store, volumeToSave, IsbnsOf(volumeToSave));
    r := Success(volumeToSave);
  }

  /**
   * When the fetched volume either lacked the queried kind of ISBN or
   * already carried the queried ISBN, a successful save registers the query:
   * saving the same ISBN again is refused.
   */
  lemma SavedQueryIsRegistered(store: VolumeStore, v: Volume, isbns: IsbnPair, isbn: string,
                               toIsbn13: string -> Option<string>)
    requires |isbn| == 10 ==> isbns.isbn10 == None || isbns.isbn10 == Some(isbn)
    requires |isbn| == 13 ==> isbns.isbn13 == None || isbns.isbn13 == Some(isbn)
    requires |isbn| == 10 || |isbn| == 13
    ensures FindByIsbn(Persist(store, v, FillIsbns(isbns, isbn, toIsbn13)), isbn) == Some(v)
    ensures CheckDatabaseForVolume(Persist(store, v, FillIsbns(isbns, isbn, toIsbn13)), isbn)
  {
    var filled := FillIsbns(isbns, isbn, toIsbn13);
    if |isbn| == 10 {
      assert filled.isbn10 == Some(isbn);
    } else {
      assert filled.isbn13 == Some(isbn);
    }
  }

  /**
   * The guard is keyed on the ISBNs the stored volume carries, not on the
   * query: a fetched volume that already carries other ISBNs leaves the
   * query unregistered, so saving the same query again passes the guard.
   */
  lemma GuardMissesQueryOfForeignVolume(v: Volume, toIsbn13: string -> Option<string>)
    ensures var stored := Persist(EmptyStore(), v,
              FillIsbns(IsbnPair(Some("0545582938"), Some("9780545582933")), "097522980X", toIsbn13));
      !CheckDatabaseForVolume(stored, "097522980X")
  {
    var stored := Persist(EmptyStore(), v,
      FillIsbns(IsbnPair(Some("0545582938"), Some("9780545582933")), "097522980X", toIsbn13));
    assert stored.byIsbn10.Keys == {"0545582938"};
    assert "097522980X" != "0545582938" by {
      assert "097522980X"[1] != "0545582938"[1];
    }
  }

  // ---------------------------------------------------------------------------
  // findByAuthor and findByCategory
  // ---------------------------------------------------------------------------

  /** The distinct elements of a list of volumes. */
  function Elements(vs: seq<Volume>): (s: set<Volume>)
  {
    set v | v in vs
  }

  /**
   * The union of the volume lists the repository holds for the given
   * entities, each looked up under `key`; an entity with no list adds nothing.
   */
  function VolumesListed<E, K>(entities: seq<E>, key: E -> K, lists: map<K, seq<Volume>>): (volumes: set<Volume>)
    decreases |entities|
  {
    if |entities| == 0 then {}
    else
      var last := entities[|entities| - 1];
      VolumesListed(entities[..|entities| - 1], key, lists)
        + (if key(last) in lists then Elements(lists[key(last)]) else {})
  }

  /** A volume is in the union exactly when some entity's list holds it. */
  lemma {:induction false} InVolumesListed<E, K>(entities: seq<E>, key: E -> K, lists: map<K, seq<Volume>>, v: Volume)
    ensures v in VolumesListed(entities, key, lists)
        <==> exists i :: 0 <= i < |entities| && key(entities[i]) in lists && v in lists[key(entities[i])]
    decreases |entities|
  {
    if |entities| > 0 {
      var n := |entities| - 1;
      var front := entities[..n];
      InVolumesListed(front, key, lists, v);
      if v in VolumesListed(entities, key, lists) {
        if v in VolumesListed(front, key, lists) {
          var i :| 0 <= i < |front| && key(front[i]) in lists && v in lists[key(front[i])];
          assert entities[i] == front[i];
        } else {
          assert key(entities[n]) in lists && v in lists[key(entities[n])];
        }
      } else {
        forall i | 0 <= i < |entities| && key(entities[i]) in lists
          ensures v !in lists[key(entities[i])]
        {
          if i < n {
            assert entities[i] == front[i];
          }
        }
      }
    }
  }

  /**
   * `findByAuthor` once `authorService.findByName` has answered with
   * `authors` (null or a list): absent when that answer is null or none of
   * the authors has a volume, otherwise the duplicate-free union of their
   * volumes. List order (a `HashSet`'s) is not modelled.
   */
  method FindByAuthor(authors: Option<seq<Author>>, volumesByAuthor: map<Uuid, seq<Volume>>)
    returns (r: Option<set<Volume>>)
    ensures r.None? <==> authors.None? || VolumesListed(authors.value, AuthorKey, volumesByAuthor) == {}
    ensures r.Some? ==> r.value == VolumesListed(authors.value, AuthorKey, volumesByAuthor)
  {
    if authors.None? {
      return None;
    }
    var found := authors.value;
    var volumes: set<Volume> := {};
    for i := 0 to |found|
      invariant volumes == VolumesListed(found[..i], AuthorKey, volumesByAuthor)
    {
      assert found[..i + 1][..i] == found[..i];
      var author := found[i];
      if author.authorId in volumesByAuthor {
        volumes := volumes + Elements(volumesByAuthor[author.authorId]);
      }
    }
    assert found[..|found|] == found;
    if volumes == {} {
      return None;
    }
    return Some(volumes);
  }

  /**
   * `findByCategory` once `categoryService.findByName` has answered with
   * `categories`: absent when that answer is null or none of the categories
   * has a volume, otherwise the duplicate-free union of their volumes.
   */
  method FindByCategory(categories: Option<seq<Category>>, volumesByCategory: map<Uuid, seq<Volume>>)
    returns (r: Option<set<Volume>>)
    ensures r.None? <==> categories.None? || VolumesListed(categories.value, CategoryKey, volumesByCategory) == {}
    ensures r.Some? ==> r.value == VolumesListed(categories.value, CategoryKey, volumesByCategory)
  {
    if categories.None? {
      return None;
    }
    var found := categories.value;
    var volumes: set<Volume> := {};
    for i := 0 to |found|
      invariant volumes == VolumesListed(found[..i], CategoryKey, volumesByCategory)
    {
      assert found[..i + 1][..i] == found[..i];
      var category := found[i];
      if category.categoryId in volumesByCategory {
        volumes := volumes + Elements(volumesByCategory[category.categoryId]);
      }
    }
    assert found[..|found|] == found;
    if volumes == {} {
      return None;
    }
    return Some(volumes);
  }
}
