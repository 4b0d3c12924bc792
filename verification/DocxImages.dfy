/** Where the images of a DOCX page are shown. A worker first saves the images of
    its page and then hands the saved paths to the image positions in order, so an
    image that cannot be saved shifts the images after it. */
module DocxImages {
  import opened DocxPages
  import opened DocxResults
  import opened Wrappers

  /** What each part of a page becomes: a text stays, the k-th image position gets
      the k-th saved path, if there is one. */
  function Slots(parts: seq<Part>, saved: seq<string>): (r: seq<Option<Item>>)
    ensures |r| == |parts|
    decreases |parts|
  {
    if parts == [] then []
    else
      match parts[0]
      case TextPart(text) => [Some(TextItem(text))] + Slots(parts[1..], saved)
      case ImagePart(_) =>
        if saved == [] then [None] + Slots(parts[1..], saved)
        else [Some(ImageItem(saved[0]))] + Slots(parts[1..], saved[1..])
  }

  /** The slots that are filled. */
  function Filled(slots: seq<Option<Item>>): seq<Item> {
    if slots == [] then []
    else if slots[0].Some? then [slots[0].value] + Filled(slots[1..])
    else Filled(slots[1..])
  }

  /** The content of a page is that of its slots. */
  lemma {:induction false} ItemsFillSlots(parts: seq<Part>, saved: seq<string>)
    ensures ItemsFrom(parts, saved) == Filled(Slots(parts, saved))
    decreases |parts|
  {
    if parts != [] {
      ItemsFillSlots(parts[1..], saved);
      if saved != [] {
        ItemsFillSlots(parts[1..], saved[1..]);
      }
      var rest := if parts[0].ImagePart? && saved != [] then saved[1..] else saved;
      assert Slots(parts, saved)[1..] == Slots(parts[1..], rest);
    }
  }

  /** How many images come before a part. */
  function ImagesBefore(parts: seq<Part>, x: nat): nat
    requires x <= |parts|
  {
    |ImagesOf(parts[..x])|
  }

  /** An image position gets the path that its number points at. */
  lemma {:induction false} SlotGets(parts: seq<Part>, saved: seq<string>, x: nat)
    requires x < |parts| && parts[x].ImagePart?
    ensures var k := ImagesBefore(parts, x);
      Slots(parts, saved)[x] == if k < |saved| then Some(ImageItem(saved[k])) else None
    decreases |parts|
  {
    if x == 0 {
      assert parts[..0] == [];
    } else {
      var rest := if parts[0].ImagePart? && saved != [] then saved[1..] else saved;
      SlotGets(parts[1..], rest, x - 1);
      assert parts[..x][1..] == parts[1..][..x - 1];
      assert Slots(parts, saved)[1..] == Slots(parts[1..], rest);
    }
  }

  /** The number of an image position is the number of its image. */
  lemma {:induction false} ImageNumber(parts: seq<Part>, x: nat)
    requires x < |parts| && parts[x].ImagePart?
    ensures ImagesBefore(parts, x) < |ImagesOf(parts)| && ImagesOf(parts)[ImagesBefore(parts, x)] == parts[x].image
    decreases |parts|
  {
    if x == 0 {
      assert parts[..0] == [];
    } else {
      ImageNumber(parts[1..], x - 1);
      assert parts[..x][1..] == parts[1..][..x - 1];
    }
  }

  predicate IsSaved(images: seq<string>, page: int, save: Saver, j: nat)
    requires j < |images|
  {
    save(page, j, images[j]).Some?
  }

  /** The numbers of the images that are saved. */
  function SavedNumbers(images: seq<string>, i: nat, page: int, save: Saver): (r: seq<nat>)
    requires i <= |images|
    ensures forall k | 0 <= k < |r| :: i + k <= r[k] < |images| && IsSaved(images, page, save, r[k])
    decreases |images| - i
  {
    if i == |images| then []
    else if IsSaved(images, page, save, i) then [i] + SavedNumbers(images, i + 1, page, save)
    else SavedNumbers(images, i + 1, page, save)
  }

  /** The saved paths are those of these images. */
  lemma {:induction false} SavedAre(images: seq<string>, i: nat, page: int, save: Saver)
    requires i <= |images|
    ensures var saved, numbers := SavedFrom(images, i, page, save), SavedNumbers(images, i, page, save);
      && |saved| == |numbers|
      && forall k | 0 <= k < |saved| :: Some(saved[k]) == save(page, numbers[k], images[numbers[k]])
    decreases |images| - i
  {
    if i < |images| {
      SavedAre(images, i + 1, page, save);
    }
  }

  /** The k-th saved image is image k exactly when all images up to it are saved. */
  lemma {:induction false} OwnNumber(images: seq<string>, i: nat, page: int, save: Saver, k: nat)
    requires i + k < |images|
    ensures var numbers := SavedNumbers(images, i, page, save);
      (k < |numbers| && numbers[k] == i + k) <==> forall j: nat | i <= j <= i + k :: IsSaved(images, page, save, j)
    decreases |images| - i
  {
    if IsSaved(images, page, save, i) && k > 0 {
      OwnNumber(images, i + 1, page, save, k - 1);
    }
  }

  /** Different images of a page are saved under different paths. */
  ghost predicate DifferentPaths(images: seq<string>, page: int, save: Saver) {
    forall i: nat, j: nat | i < j < |images| && IsSaved(images, page, save, i) && IsSaved(images, page, save, j) ::
      save(page, i, images[i]) != save(page, j, images[j])
  }

  /** An image is shown at its own place exactly when it and all images before it
      on the page can be saved. */
  lemma ShownInPlace(parts: seq<Part>, page: int, save: Saver, x: nat)
    requires x < |parts| && parts[x].ImagePart? && DifferentPaths(ImagesOf(parts), page, save)
    ensures var images := ImagesOf(parts);
      var k := ImagesBefore(parts, x);
      && k < |images| && images[k] == parts[x].image
      && ((exists path :: save(page, k, images[k]) == Some(path)
             && Slots(parts, SavedFrom(images, 0, page, save))[x] == Some(ImageItem(path)))
          <==> forall j: nat | j <= k :: IsSaved(images, page, save, j))
  {
    var images := ImagesOf(parts);
    var k := ImagesBefore(parts, x);
    var saved, numbers := SavedFrom(images, 0, page, save), SavedNumbers(images, 0, page, save);
    ImageNumber(parts, x);
    SlotGets(parts, saved, x);
    SavedAre(images, 0, page, save);
    OwnNumber(images, 0, page, save, k);
    if k < |numbers| && numbers[k] == k {
      assert save(page, k, images[k]) == Some(saved[k]);
    } else if k < |numbers| {
      assert numbers[k] > k;
    }
  }

  /** All images that are saved are shown at their own places exactly when none
      that cannot be saved comes before one that can. */
  lemma AllInPlace(images: seq<string>, page: int, save: Saver)
    ensures var numbers := SavedNumbers(images, 0, page, save);
      (forall k: nat | k < |numbers| :: numbers[k] == k) <==>
      (forall i: nat, j: nat | i < j < |images| && IsSaved(images, page, save, j) :: IsSaved(images, page, save, i))
  {
    var numbers := SavedNumbers(images, 0, page, save);
    if forall i: nat, j: nat | i < j < |images| && IsSaved(images, page, save, j) :: IsSaved(images, page, save, i) {
      forall k: nat | k < |numbers| ensures numbers[k] == k {
        assert IsSaved(images, page, save, numbers[k]);
        OwnNumber(images, 0, page, save, k);
      }
    }
    if forall k: nat | k < |numbers| :: numbers[k] == k {
      forall i: nat, j: nat | i < j < |images| && IsSaved(images, page, save, j)
        ensures IsSaved(images, page, save, i)
      {
        var k := NumberOf(images, 0, page, save, j);
        assert numbers[k] == k;
        OwnNumber(images, 0, page, save, j);
      }
    }
  }

  /** A saved image has its place among the saved ones. */
  lemma {:induction false} NumberOf(images: seq<string>, i: nat, page: int, save: Saver, j: nat) returns (k: nat)
    requires i <= j < |images| && IsSaved(images, page, save, j)
    ensures var numbers := SavedNumbers(images, i, page, save); k < |numbers| && numbers[k] == j
    decreases |images| - i
  {
    if i == j {
      k := 0;
    } else {
      k := NumberOf(images, i + 1, page, save, j);
      if IsSaved(images, page, save, i) {
        k := k + 1;
      }
    }
  }

  /** Two images around a text, of which only the second can be saved: it is shown
      before the text instead of after it. */
  lemma ShiftedImage(first: string, text: string, second: string, page: int, save: Saver, path: string)
    requires save(page, 0, first).None? && save(page, 1, second) == Some(path)
    ensures var parts := [ImagePart(first), TextPart(text), ImagePart(second)];
      ItemsFrom(parts, SavedFrom(ImagesOf(parts), 0, page, save)) == [ImageItem(path), TextItem(text)]
  {
    var parts := [ImagePart(first), TextPart(text), ImagePart(second)];
    assert parts[1..] == [TextPart(text), ImagePart(second)];
    assert [TextPart(text), ImagePart(second)][1..] == [ImagePart(second)] && [ImagePart(second)][1..] == [];
    assert ImagesOf([ImagePart(second)]) == [second];
    assert ImagesOf(parts) == [first, second];
    assert SavedFrom([first, second], 1, page, save) == [path] + [];
    assert [path][1..] == [];
    assert ItemsFrom([ImagePart(second)], []) == [];
    assert ItemsFrom([TextPart(text), ImagePart(second)], []) == [TextItem(text)];
  }
}
