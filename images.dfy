/**
  Where `download_image` saves a product picture: `images/<stem>.jpg`, the
  stem being the product title with spaces turned into underscores and
  periods removed.
 */
module Images {
  import opened Wrappers
  import opened Strings

  const Directory: string := "images/"
  const Extension: string := ".jpg"

  /** The title as a file stem: `title.replace(' ', '_').replace('.', '')`. */
  function Stem(title: string): string
  {
    RemoveAll(ReplaceChar(title, ' ', '_'), '.')
  }

  /** The stem has no space and no period, and is shorter than the title by its periods. */
  lemma StemSpec(title: string)
    ensures ' ' !in Stem(title) && '.' !in Stem(title)
    ensures |Stem(title)| == |title| - Count(title, '.')
  {
    var underscored := ReplaceChar(title, ' ', '_');
    CountReplaceChar(title, ' ', '_', '.');
    RemoveAllSpec(underscored, '.');
    RemoveAllMultiset(underscored, '.');
    assert multiset(Stem(title))[' '] == multiset(underscored)[' '] == 0;
  }

  /** The stem is built character by character ... */
  lemma StemConcat(a: string, b: string)
    ensures Stem(a + b) == Stem(a) + Stem(b)
  {
    ReplaceCharConcat(a, b, ' ', '_');
    RemoveAllConcat(ReplaceChar(a, ' ', '_'), ReplaceChar(b, ' ', '_'), '.');
  }

  /** ... and each character maps to `_`, to nothing, or to itself. */
  lemma StemOfChar(ch: char)
    ensures Stem([ch]) == if ch == '.' then [] else if ch == ' ' then "_" else [ch]
  {
    var underscored := [if ch == ' ' then '_' else ch];
    assert [ch][1..] == [] && underscored[1..] == [];
    assert ReplaceChar([ch], ' ', '_') == underscored;
    assert RemoveAll(underscored, '.') == if ch == '.' then [] else underscored;
  }

  /** The path of the saved picture. */
  function ImagePath(title: string): string
  {
    Directory + Stem(title) + Extension
  }

  /**
    The picture lies in `images/`, its name ends in `.jpg` and holds the stem
    in between; the path has no space, and its only period is the one that
    begins the extension.
   */
  lemma ImagePathShape(title: string)
    ensures var path := ImagePath(title);
            && |path| == |Directory| + |title| - Count(title, '.') + |Extension|
            && path[..|Directory|] == Directory
            && path[|Directory|..|path| - |Extension|] == Stem(title)
            && path[|path| - |Extension|..] == Extension
            && ' ' !in path
            && forall i :: 0 <= i < |path| ==> (path[i] == '.' <==> i == |path| - |Extension|)
  {
    var stem := Stem(title);
    StemSpec(title);
    var path := ImagePath(title);
    assert forall i :: |Directory| <= i < |Directory| + |stem| ==> path[i] == stem[i - |Directory|];
  }

  /**
    The value `download_image` returns. `saved` is the outcome of the network
    fetch and the file write together; a missing title makes building the
    path fail inside the function's own handler, which also yields no path.
   */
  function DownloadImage(saved: bool, title: Option<string>): (path: Option<string>)
    ensures path.Some? <==> saved && title.Some?
    ensures path.Some? ==> path.value == ImagePath(title.value)
  {
    if saved && title.Some? then Some(ImagePath(title.value)) else None
  }
}
