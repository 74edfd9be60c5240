# Volume ISBN handling of the library manager, in Dafny

This project models the ISBN logic of the library manager's volume service
and the hand-written helpers of its volume mapper:

- `convertToISBN10`, which turns a "978" ISBN-13 into an ISBN-10 by
  weighting its nine payload digits 10 down to 2 and appending the
  modulus-11 check character ("X" for ten), then re-checks the result with
  the ISBN-10 validator (module `Isbn`);
- `processIsbns`, which fills in whichever ISBN field of a freshly fetched
  volume is missing, in place, without touching a field that is already set;
- `findByIsbn`, `checkDatabaseForVolume` and the duplicate guard of `save`,
  which choose the ISBN-10 or ISBN-13 index by the length of the query, over
  an abstract repository holding those two indexes;
- `findByAuthor` and `findByCategory`, which union the volume lists of every
  matching author or category and answer null when the name lookup answered
  null or the union is empty (module `VolumeService`);
- `mapIsbn`, the first identifier of a given length in the metadata API's
  list, and `mapAuthorName` / `mapCategoryName`, the name sets of author
  and category sets (module `VolumeMapper`).

A `Volume` is a class whose fields the service writes (module `Catalog`);
authors, categories, ISBN pairs and the repository are values. Java's
`null` is `Option.None`, the `VolumeIsAlreadyRegisteredException` of `save`
is `Result.Failure`. `convertToISBN10` is a method with the source's loop,
proved equal to the function `Isbn10Of`; `processIsbns` is a method that
writes only the two ISBN fields of the volume, proved equal to the function
`FillIsbns`; the author and category searches are methods with the source's
loops, proved equal to the function `VolumesListed`.

Foreign code: Apache Commons' `ISBNValidator.isValidISBN10` is modelled as
the ISO 2108 ISBN-10 rule (`Isbn.IsValidIsbn10`: nine decimal digits, a
check character that is a digit or 'X', and a weighted sum 10..1 divisible by
eleven), together with the library's refusal of a weighted sum of zero, so
that "0000000000" is not valid and "978000000000x" does not convert.
`ISBNValidator.convertToISBN13` is a function parameter `toIsbn13` about
which nothing is assumed. The metadata fetch (`GoogleApiConsumer.get`)
is the `fetched` parameter of `Save`; `AuthorService.findByName` and
`CategoryService.findByName` are the `authors` / `categories` parameters of
the searches; the repository's per-author and per-category lists are map
parameters.

`Character.getNumericValue` is modelled on ASCII (digits 0..9, Latin letters
10..35, anything else -1). The result of the conversion does not depend on
that choice: any non-digit among the nine payload characters makes the
validator reject the candidate, so the conversion is absent whatever value
the character had (`Isbn10OfAbsentIff`).

Strings are sequences of Unicode scalar values, as Dafny's `char` is one;
Java's `length()`, `substring` and `charAt` count UTF-16 code units.

## Model

| member | source | states |
|---|---|---|
| `Isbn.ConvertToIsbn10` | diagonal-library/src/main/java/prisc/librarymanager/service/VolumeService.java:198-225 | the loop that accumulates `sum` with weights 10 down to 2, the check digit and the re-validation compute exactly `Isbn10Of(isbn13)` |
| `Isbn.Isbn10OfAbsentIff` | diagonal-library/src/main/java/prisc/librarymanager/service/VolumeService.java:200-224 | the conversion is null exactly when the input does not start with "978", a payload character is not a digit, or the payload is "000000000"; for any other all-digit payload the validator's failure branch is unreachable |
| `Isbn.Isbn10OfPrefixedDigits` | diagonal-library/src/main/java/prisc/librarymanager/service/VolumeService.java:200-220 | an all-digit 13-character ISBN starting with "978" converts exactly when its payload is not "000000000" |
| `Isbn.Isbn10OfZeroPayload` | diagonal-library/src/main/java/prisc/librarymanager/service/VolumeService.java:219-224 | "978000000000" followed by any character does not convert: the candidate "0000000000" has weighted sum zero and the validator refuses it |
| `Isbn.Isbn10OfShape` | diagonal-library/src/main/java/prisc/librarymanager/service/VolumeService.java:205-220 | a converted ISBN-10 has length 10, its first nine characters are characters 3..11 of the input, its tenth is the check character ('X' exactly when the check value is 10), and it satisfies the ISBN-10 rule |
| `Isbn.CheckCharCompletesIsbn10` | diagonal-library/src/main/java/prisc/librarymanager/service/VolumeService.java:207-219 | nine digits followed by the computed check character pass the ISBN-10 validator (weights 10..1, sum divisible by 11 and not zero) exactly when the nine digits are not all '0' |
| `Isbn.CheckValueCompletesSum` | diagonal-library/src/main/java/prisc/librarymanager/service/VolumeService.java:214 | a non-negative sum plus `(11 - sum % 11) % 11` is a multiple of eleven, and is zero only when the sum is |
| `Isbn.WeightedSumOfDigitsZeroIff` | diagonal-library/src/main/java/prisc/librarymanager/service/VolumeService.java:207-213 | the accumulated sum over digits with positive weights is zero exactly when every digit is '0' |
| `Isbn.WeightedSumOfDigitsNonNegative` | diagonal-library/src/main/java/prisc/librarymanager/service/VolumeService.java:207-213 | the accumulated sum over digits with positive weights is never negative, so Java's `%` agrees with the mathematical remainder there |
| `Isbn.CheckValue` | diagonal-library/src/main/java/prisc/librarymanager/service/VolumeService.java:214 | `(11 - sum % 11) % 11`, with Java's truncating `%`, lies in 0..10 for every sum, negative ones included |
| `Isbn.CheckChar` | diagonal-library/src/main/java/prisc/librarymanager/service/VolumeService.java:216 | the check character is 'X' exactly for value 10 and reads back as its value |
| `Isbn.DigitChar` | diagonal-library/src/main/java/prisc/librarymanager/service/VolumeService.java:216 | `String.valueOf` of 0..9 is the digit character whose numeric value is that number |
| `Isbn.NumericValue` | diagonal-library/src/main/java/prisc/librarymanager/service/VolumeService.java:210 | `Character.getNumericValue` lies in -1..35 and is in 0..9 exactly for decimal digits |
| `Isbn.JavaRem` | diagonal-library/src/main/java/prisc/librarymanager/service/VolumeService.java:214 | Java's remainder lies strictly between -b and b, agrees with the Euclidean one for non-negative dividends and is not positive for negative ones |
| `Isbn.Isbn10OfHarryPotter` | diagonal-library/src/test/java/prisc/librarymanager/util/VolumeCreator.java:15-16 | "9780545582933" converts to "0545582938" |
| `Isbn.Isbn10OfElementsOfStyle` | diagonal-library/src/test/java/prisc/librarymanager/util/VolumeCreator.java:45-46 | "9780975229804" converts to "097522980X" (the 'X' branch) |
| `Isbn.Isbn10OfOutsideBookland` | diagonal-library/src/main/java/prisc/librarymanager/service/VolumeService.java:200-203 | inputs without the "978" prefix, such as "1234567890123" and the 979 ISBN "9791234567896", do not convert |
| `VolumeService.FindByIsbn` | diagonal-library/src/main/java/prisc/librarymanager/service/VolumeService.java:79-90 | a volume is found exactly when a 10-character query is in the ISBN-10 index or a 13-character query in the ISBN-13 index, and it is the one indexed there; other lengths find nothing |
| `VolumeService.FindByIsbnReadsOneIndex` | diagonal-library/src/main/java/prisc/librarymanager/service/VolumeService.java:80-84 | the lookup consults the ISBN-10 index only for length 10 and the ISBN-13 index only for length 13 |
| `VolumeService.CheckDatabaseForVolume` | diagonal-library/src/main/java/prisc/librarymanager/service/VolumeService.java:155-157 | the ISBN counts as registered exactly when the index its length selects holds it |
| `VolumeService.FillIsbns` | diagonal-library/src/main/java/prisc/librarymanager/service/VolumeService.java:166-190 | a set ISBN field is never overwritten; a query of length 10 fills a missing ISBN-10 with itself and a missing ISBN-13 with `convertToISBN13`; length 13 fills a missing ISBN-13 with itself and a missing ISBN-10 with the conversion; other lengths change nothing |
| `VolumeService.ProcessIsbns` | diagonal-library/src/main/java/prisc/librarymanager/service/VolumeService.java:166-190 | writes only the two ISBN fields of the volume, in place, leaving them as `FillIsbns` says, and returns the same volume |
| `VolumeService.FillIsbnsKeepsCompletePair` | diagonal-library/src/main/java/prisc/librarymanager/service/VolumeService.java:167-169 | a volume that carries both ISBNs is returned unchanged |
| `VolumeService.FillIsbnsSetsQueriedField` | diagonal-library/src/main/java/prisc/librarymanager/service/VolumeService.java:171-187 | after filling, the field of the query's kind is set; an all-digit "978" ISBN-13 query leaves both fields set unless its payload is "000000000", which leaves a missing ISBN-10 missing |
| `VolumeService.FillIsbnsMayMixEditions` | diagonal-library/src/main/java/prisc/librarymanager/service/VolumeService.java:180-186 | a fetched ISBN-13 of one book is kept beside an ISBN-10 converted from a different queried ISBN-13 |
| `VolumeService.Persist` | diagonal-library/src/main/java/prisc/librarymanager/service/VolumeService.java:56 | after a repository save the volume is indexed under each ISBN it carries and every other index entry is unchanged |
| `VolumeService.Save` | diagonal-library/src/main/java/prisc/librarymanager/service/VolumeService.java:47-58 | fails with `VolumeIsAlreadyRegistered(isbn)` exactly when `checkDatabaseForVolume(isbn)` holds, leaving volume and repository alone; otherwise fills the ISBNs as `FillIsbns` says and persists the volume |
| `VolumeService.SavedQueryIsRegistered` | diagonal-library/src/main/java/prisc/librarymanager/service/VolumeService.java:49-56 | when the fetched volume lacked the query's kind of ISBN or already had the query, the saved volume is found by the query and a second save of it is refused |
| `VolumeService.GuardMissesQueryOfForeignVolume` | diagonal-library/src/main/java/prisc/librarymanager/service/VolumeService.java:49-56 | the guard is keyed on the stored volume's ISBNs: a fetched volume carrying other ISBNs leaves the query unregistered |
| `VolumeService.InVolumesListed` | diagonal-library/src/main/java/prisc/librarymanager/service/VolumeService.java:114-118 | a volume is in the union exactly when the list of some matching entity holds it |
| `VolumeService.FindByAuthor` | diagonal-library/src/main/java/prisc/librarymanager/service/VolumeService.java:109-124 | null exactly when the author lookup answered null or the authors' volumes are empty; otherwise the duplicate-free union of every matching author's volumes |
| `VolumeService.FindByCategory` | diagonal-library/src/main/java/prisc/librarymanager/service/VolumeService.java:131-146 | null exactly when the category lookup answered null or the categories' volumes are empty; otherwise the duplicate-free union of every matching category's volumes |
| `VolumeMapper.MapIsbn` | diagonal-library/src/main/java/prisc/librarymanager/mapper/VolumeMapper.java:45-53 | null exactly when no identifier has length `type`; otherwise an identifier of the list of that length, with no identifier of that length before it |
| `VolumeMapper.MapAuthorName` | diagonal-library/src/main/java/prisc/librarymanager/mapper/VolumeMapper.java:33-35 | exactly the names of the given authors, no more names than authors |
| `VolumeMapper.MapCategoryName` | diagonal-library/src/main/java/prisc/librarymanager/mapper/VolumeMapper.java:36-38 | exactly the names of the given categories, no more names than categories |
| `VolumeMapper.ImageNoLarger` | diagonal-library/src/main/java/prisc/librarymanager/mapper/VolumeMapper.java:34 | the image of a set under `getName` is no larger than the set |

## Left out

- `ISBNValidator.convertToISBN13` (Apache Commons) is an unconstrained parameter: its checksum and the `IllegalArgumentException` it throws on malformed input are not modelled, and no ISBN-13 to ISBN-10 to ISBN-13 round trip is claimed.
- `ISBNValidator.isValidISBN10` is modelled as the ISO 2108 rule on a 10-character string plus its refusal of a zero sum; its trimming and its separated input forms are not modelled. This does not change any result: a separated ISBN-10 needs three separators beside its ten digits, so a 10-character candidate holding a '-' or a space carries too few digits for the validator's length check, and trimming surrounding whitespace leaves fewer than ten characters; either way such a candidate is refused, as the model refuses any non-digit payload character.
- `Isbn.NumericValue`: every non-ASCII character is given -1, where Java gives values to other scripts' digits, to fullwidth Latin letters (10..35) and to numerals (-2 for fractions); this does not change any conversion result (see above).
- `Isbn.ConvertToIsbn10` requires an input of at least 12 characters when it starts with "978": shorter ones make `substring(3, 12)` throw, which is not modelled; `processIsbns` only passes 13-character input.
- `GoogleApiConsumer.get` is network I/O: the fetched volume is a parameter of `Save`.
- `AuthorService.processAuthors` and `CategoryService.processCategories` (author and category deduplication in `save`) are not part of this model; their source is not among the modelled files.
- `AuthorService.findByName` and `CategoryService.findByName` are parameters; the repository queries `findByAuthorsAuthorId` and `findByCategoriesCategoryId` are maps from entity id to volume list.
- `VolumeService.Persist` models `volumeRepository.save` as indexing the volume under its ISBNs; the index is a map, so saving a volume under an ISBN that is already indexed re-points the key to the new volume (the last write wins), whereas the repository keeps both rows: the duplicate rows, and the failure of `findByIsbn10`/`findByIsbn13` on a non-unique result or a unique constraint refusing the save, are not modelled. Identifier assignment and transactions (`@Transactional`) are not modelled either.
- `VolumeService.FindByAuthor` and `VolumeService.FindByCategory` return a set: the order of the list built from the `HashSet` is not modelled, and volumes are compared by reference.
- The response mappings (`toVolumeResponse`, `toVolumeResponseList`, `toVolume`, `mapAuthor`, `mapCategory`) are generated by MapStruct and not visible; the model returns `Volume` objects.
- `VolumeMapper.MapIsbn` takes the identifier list itself; a null `getIndustryIdentifiers()` and a null `getIdentifier()` (each a `NullPointerException`) are not modelled.
- String lengths: strings are sequences of Unicode scalar values, while Java's `String.length()`, `substring` and `charAt` count UTF-16 code units; for characters outside the Basic Multilingual Plane the lengths differ (the model counts "123456789😀" as 10 characters and looks it up as an ISBN-10, Java counts 11 and finds nothing), so the length dispatch of `findByIsbn`, `processIsbns` and `mapIsbn` agrees with Java only on BMP text.
- `getAll`, `findById` and `findByTitle` only forward to the repository and mapper and are not modelled.
- The back-references from authors and categories to their volumes are not kept.
- Dependency injection and logging are framework plumbing and are not modelled.
