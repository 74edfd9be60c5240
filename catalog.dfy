/**
 * The catalog's entities: a `Volume` is an object whose ISBN fields the
 * service fills in place; authors and categories are referred to by value.
 */
module Catalog {
  import opened Wrappers

  /** An opaque database identifier (a `java.util.UUID`). */
  type Uuid = nat

  /** An author as the volume service sees it; the back-reference to its volumes is not kept. */
  datatype Author = Author(authorId: Uuid, name: string)

  /** A category as the volume service sees it; the back-reference to its volumes is not kept. */
  datatype Category = Category(categoryId: Uuid, name: string)

  /** The key under which the repository lists an author's volumes. */
  function AuthorKey(a: Author): Uuid {
    a.authorId
  }

  /** The key under which the repository lists a category's volumes. */
  function CategoryKey(c: Category): Uuid {
    c.categoryId
  }

  /** A catalog record for one edition of a book. `isbn10` and `isbn13` are null until known. */
  class Volume {
    var volumeId: Option<Uuid>
    var title: string
    var isbn10: Option<string>
    var isbn13: Option<string>
    var authors: set<Author>
    var categories: set<Category>
    var publishedDate: string
    var language: string

    /** A volume as the metadata client builds it: no identifier yet. */
    constructor (title: string, isbn10: Option<string>, isbn13: Option<string>,
                 authors: set<Author>, categories: set<Category>,
                 publishedDate: string, language: string)
      ensures this.volumeId == None && this.title == title
      ensures this.isbn10 == isbn10 && this.isbn13 == isbn13
      ensures this.authors == authors && this.categories == categories
      ensures this.publishedDate == publishedDate && this.language == language
    {
      this.volumeId := None;
      this.title := title;
      this.isbn10 := isbn10;
      this.isbn13 := isbn13;
      this.authors := authors;
      this.categories := categories;
      this.publishedDate := publishedDate;
      this.language := language;
    }
  }
}
