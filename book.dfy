/** `Book` (Task1/src/library_system/models/book.py). */
module Books {
  import opened PyStr

  /** The status word `Book.__str__` shows. */
  function StatusText(isAvailable: bool): string
  {
    if isAvailable then "Available" else "Checked out"
  }

  /** `<title> by <author> (ISBN: <isbn>)`, the part of `__str__` before the status. */
  function Heading(title: string, author: string, isbn: string): string
  {
    title + " by " + author + " (ISBN: " + isbn + ")"
  }

  class Book {
    const isbn: string
    const title: string
    const author: string
    /** Flipped by `Library` on checkout and return. */
    var isAvailable: bool

    constructor (isbn: string, title: string, author: string, isAvailable: bool := true)
      ensures this.isbn == isbn && this.title == title && this.author == author
      ensures this.isAvailable == isAvailable
    {
      this.isbn := isbn;
      this.title := title;
      this.author := author;
      this.isAvailable := isAvailable;
    }

    /**
     * `__str__`: `<title> by <author> (ISBN: <isbn>) - <status>`. The status
     * can be read off the end of the text: it ends in " - Available" exactly
     * when the book is available.
     */
    function ToString(): (s: string)
      reads this
      ensures StartsWith(s, Heading(title, author, isbn))
      ensures EndsWith(s, " - Available") <==> isAvailable
      ensures !isAvailable ==> EndsWith(s, " - Checked out")
      ensures EndsWith(s, " - " + StatusText(isAvailable))
      ensures |s| == |Heading(title, author, isbn)| + |" - " + StatusText(isAvailable)|
    {
      var heading, status := Heading(title, author, isbn), " - " + StatusText(isAvailable);
      var s := heading + status;
      ConcatAffixes(heading, status);
      assert s[|s| - 1] == status[|status| - 1];
      s
    }
  }

}
