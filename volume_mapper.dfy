/**
 * The hand-written helpers of `VolumeMapper`: choosing an ISBN of a given
 * length among the identifiers the metadata API returns, and projecting
 * author and category sets onto their names.
 */
module VolumeMapper {
  import opened Wrappers
  import opened Catalog

  /** One entry of the metadata API's `industryIdentifiers` list. */
  datatype IndustryIdentifier = IndustryIdentifier(kind: string, identifier: string)

  /**
   * `mapIsbn`: the first identifier, in list order, whose length is
   * `isbnType`; absent when there is none.
   */
  function MapIsbn(identifiers: seq<IndustryIdentifier>, isbnType: int): (r: Option<string>)
    ensures r.None? <==> forall i :: 0 <= i < |identifiers| ==> |identifiers[i].identifier| != isbnType
    ensures r.Some? ==> |r.value| == isbnType
    ensures r.Some? ==> exists k :: 0 <= k < |identifiers| && identifiers[k].identifier == r.value
                                    && forall j :: 0 <= j < k ==> |identifiers[j].identifier| != isbnType
  {
    if |identifiers| == 0 then None
    else if |identifiers[0].identifier| == isbnType then Some(identifiers[0].identifier)
    else
      var r := MapIsbn(identifiers[1..], isbnType);
      assert r.Some? ==> exists k :: 0 < k < |identifiers| && identifiers[k].identifier == r.value
                                     && forall j :: 0 <= j < k ==> |identifiers[j].identifier| != isbnType by {
        if r.Some? {
          var k :| 0 <= k < |identifiers| - 1 && identifiers[1..][k].identifier == r.value
                   && forall j :: 0 <= j < k ==> |identifiers[1..][j].identifier| != isbnType;
          assert forall j :: 0 < j < k + 1 ==> identifiers[j] == identifiers[1..][j - 1];
        }
      }
      r
  }

  /** An image of a finite set under a function is no larger than the set. */
  lemma {:induction false} ImageNoLarger<T, U>(s: set<T>, image: set<U>, f: T -> U)
    requires forall y :: y in image ==> exists x :: x in s && f(x) == y
    ensures |image| <= |s|
    decreases s
  {
    if s == {} {
      assert image == {} by {
        if y :| y in image {
          assert false;
        }
      }
    } else {
      var x :| x in s;
      var rest, restImage := s - {x}, image - {f(x)};
      forall y | y in restImage ensures exists x' :: x' in rest && f(x') == y {
        var x' :| x' in s && f(x') == y;
        assert x' != x;
      }
      ImageNoLarger(rest, restImage, f);
      assert image <= restImage + {f(x)};
      assert |image| <= |restImage + {f(x)}| <= |restImage| + 1;
    }
  }

  /** `mapAuthorName`: exactly the names of the given authors. */
  function MapAuthorName(authors: set<Author>): (names: set<string>)
    ensures forall n :: n in names <==> exists a :: a in authors && a.name == n
    ensures |names| <= |authors|
  {
    var names := set a | a in authors :: a.name;
    ImageNoLarger(authors, names, (a: Author) => a.name);
    names
  }

  /** `mapCategoryName`: exactly the names of the given categories. */
  function MapCategoryName(categories: set<Category>): (names: set<string>)
    ensures forall n :: n in names <==> exists c :: c in categories && c.name == n
    ensures |names| <= |categories|
  {
    var names := set c | c in categories :: c.name;
    ImageNoLarger(categories, names, (c: Category) => c.name);
    names
  }
}
