/**
 * The photo-selection screen of the TEA mode. The list of photos lives in the parent
 * (`images`, replaced through `onImagesChange`); the screen appends uploaded files,
 * fills the list up to `MAX_IMAGES` with random pictures, removes a photo by index,
 * and lets the player continue once there are at least three photos.
 *
 * File reading, image decoding and the network fetches are parameters: each file
 * carries what decoding it yields, and the random fill is given which fetches succeed.
 */
module UploadScreen {
  import opened Wrappers
  import opened Constants
  import opened Validation
  import opened Randomness
  import opened Numerals

  /** An entry of `images`. */
  datatype Photo = Photo(src: string, name: string, width: int, height: int)

  /** What `loadImage` yields for a file's data URL: the URL and the image's size. */
  datatype Decoded = Decoded(src: string, width: int, height: int)

  /** A selected file; `decoded` is None when its data URL does not load as an image. */
  datatype SelectedFile = SelectedFile(file: ImageFile, name: string, decoded: Option<Decoded>)

  const MinImagesRequired := 3

  const Keywords: seq<string> := ["toys", "puppy", "kitten", "alphabet", "numbers", "colors", "shapes", "animals"]

  /** `filter(img => img !== null)`: the present values, in order. */
  function Compact(xs: seq<Option<Photo>>): (r: seq<Photo>)
    ensures |r| <= |xs|
    ensures (forall i :: 0 <= i < |xs| ==> xs[i].Some?) ==>
      |r| == |xs| && forall i :: 0 <= i < |xs| ==> r[i] == xs[i].value
  {
    if |xs| == 0 then []
    else
      var init := Compact(xs[..|xs| - 1]);
      match xs[|xs| - 1]
      case None => init
      case Some(p) => init + [p]
  }

  /** Compacting keeps exactly the present values. */
  lemma {:induction false} CompactMembers(xs: seq<Option<Photo>>, p: Photo)
    ensures p in Compact(xs) <==> Some(p) in xs
  {
    if |xs| > 0 {
      var init := xs[..|xs| - 1];
      CompactMembers(init, p);
      assert xs == init + [xs[|xs| - 1]];
    }
  }

  /** Compacting keeps the order of the kept values. */
  lemma {:induction false} CompactAppend(xs: seq<Option<Photo>>, ys: seq<Option<Photo>>)
    ensures Compact(xs + ys) == Compact(xs) + Compact(ys)
    decreases |ys|
  {
    if |ys| == 0 {
      assert xs + ys == xs;
    } else {
      var zs := xs + ys;
      var init := ys[..|ys| - 1];
      assert zs[..|zs| - 1] == xs + init;
      assert zs[|zs| - 1] == ys[|ys| - 1];
      CompactAppend(xs, init);
      match ys[|ys| - 1]
      case None =>
        assert Compact(zs) == Compact(xs + init);
        assert Compact(ys) == Compact(init);
      case Some(p) =>
        assert Compact(zs) == Compact(xs + init) + [p];
        assert Compact(ys) == Compact(init) + [p];
    }
  }

  /** The result for one file: nothing when it fails validation or does not load. */
  function Process(f: SelectedFile): (r: Option<Photo>)
    ensures r.Some? <==> Acceptable(f.file) && f.decoded.Some?
    ensures r.Some? ==> r.value.name == f.name && r.value.src == f.decoded.value.src
  {
    if !Acceptable(f.file) then None
    else match f.decoded
      case None => None
      case Some(d) => Some(Photo(d.src, f.name, d.width, d.height))
  }

  function ProcessAll(files: seq<SelectedFile>): (r: seq<Option<Photo>>)
    ensures |r| == |files|
  {
    seq(|files|, i requires 0 <= i < |files| => Process(files[i]))
  }

  /**
   * `handleImageUpload`: None when the selection would exceed `MAX_IMAGES` (the list is
   * left as it is), otherwise the new list.
   */
  function Uploaded(images: seq<Photo>, files: seq<SelectedFile>): (r: Option<seq<Photo>>)
    ensures r.None? <==> |images| + |files| > MaxImages
    ensures r.Some? ==> |images| <= |r.value| <= MaxImages
  {
    if |images| + |files| > MaxImages then None
    else Some(images + Compact(ProcessAll(files)))
  }

  /**
   * An accepted upload keeps the existing photos in front, appends one photo per
   * valid, loadable file and nothing else, and never exceeds `MAX_IMAGES`.
   */
  lemma UploadKeepsCapacity(images: seq<Photo>, files: seq<SelectedFile>)
    ensures Uploaded(images, files).None? <==> |images| + |files| > MaxImages
    ensures Uploaded(images, files).Some? ==>
      var r := Uploaded(images, files).value;
      && r[..|images|] == images
      && |images| <= |r| <= |images| + |files| <= MaxImages
      && (forall p :: p in r[|images|..] <==>
            exists i :: 0 <= i < |files| && Process(files[i]) == Some(p))
  {
    if |images| + |files| <= MaxImages {
      var r := Uploaded(images, files).value;
      assert r[|images|..] == Compact(ProcessAll(files));
      forall p
        ensures p in r[|images|..] <==> exists i :: 0 <= i < |files| && Process(files[i]) == Some(p)
      {
        CompactMembers(ProcessAll(files), p);
        if p in r[|images|..] {
          var i :| 0 <= i < |files| && ProcessAll(files)[i] == Some(p);
          assert Process(files[i]) == Some(p);
        }
        if exists i :: 0 <= i < |files| && Process(files[i]) == Some(p) {
          var i :| 0 <= i < |files| && Process(files[i]) == Some(p);
          assert ProcessAll(files)[i] == Some(p);
        }
      }
    }
  }

  /** Files are processed in order: uploading `a + b` appends the photos of `a`, then those of `b`. */
  lemma ProcessAllAppend(a: seq<SelectedFile>, b: seq<SelectedFile>)
    ensures ProcessAll(a + b) == ProcessAll(a) + ProcessAll(b)
  {
    var pa, pb := ProcessAll(a), ProcessAll(b);
    forall i | 0 <= i < |a| + |b|
      ensures ProcessAll(a + b)[i] == (pa + pb)[i]
    {
      if i < |a| {
        assert (a + b)[i] == a[i];
      } else {
        assert (a + b)[i] == b[i - |a|];
      }
    }
  }

  lemma UploadInFileOrder(images: seq<Photo>, a: seq<SelectedFile>, b: seq<SelectedFile>)
    requires |images| + |a| + |b| <= MaxImages
    ensures Uploaded(images, a + b) == Some(Uploaded(images, a).value + Compact(ProcessAll(b)))
  {
    var pa, pb := ProcessAll(a), ProcessAll(b);
    ProcessAllAppend(a, b);
    CompactAppend(pa, pb);
    assert images + (Compact(pa) + Compact(pb)) == (images + Compact(pa)) + Compact(pb);
  }


  /**
   * The picture for slot `idx` of the random fill. Its keyword uses the draw of call
   * `2 * idx` (each slot draws its keyword, then its unique id); `fetched(idx)` is the
   * canvas data URL when the download succeeds, and `fallback(idx)` the placeholder.
   */
  function RandomEntry(idx: nat, draws: Draws, fetched: nat -> Option<string>, fallback: nat -> string): Photo
    requires UnitDraws(draws)
  {
    var keyword := Keywords[ScaledIndex(draws(2 * idx), |Keywords|)];
    match fetched(idx)
    case Some(src) => Photo(src, "random-" + keyword + "-" + Decimal(idx) + ".jpg", 800, 800)
    case None => Photo(fallback(idx), "fallback-" + Decimal(idx) + ".jpg", 800, 800)
  }

  /** `MAX_IMAGES - images.length`, where `Array.from` turns a negative length into 0. */
  function SlotsToFill(images: seq<Photo>): nat {
    if |images| < MaxImages then MaxImages - |images| else 0
  }

  /** `generateRandomImages`. */
  function RandomFill(images: seq<Photo>, draws: Draws, fetched: nat -> Option<string>, fallback: nat -> string): seq<Photo>
    requires UnitDraws(draws)
  {
    var n := SlotsToFill(images);
    images + Compact(seq(n, idx requires 0 <= idx < n => Some(RandomEntry(idx, draws, fetched, fallback))))
  }

  /**
   * The random fill never drops an entry: it fills the list to exactly `MAX_IMAGES`,
   * keeping the existing photos in front, with 800 x 800 pictures whose name is
   * numbered by slot.
   */
  lemma RandomFillFillsUp(images: seq<Photo>, draws: Draws, fetched: nat -> Option<string>, fallback: nat -> string)
    requires UnitDraws(draws) && |images| <= MaxImages
    ensures var r := RandomFill(images, draws, fetched, fallback);
      && |r| == MaxImages
      && r[..|images|] == images
      && forall k :: |images| <= k < MaxImages ==>
           r[k].width == 800 && r[k].height == 800
           && r[k].name[|r[k].name| - 4..] == ".jpg"
  {
    var r := RandomFill(images, draws, fetched, fallback);
    forall k | |images| <= k < MaxImages
      ensures r[k].width == 800 && r[k].height == 800 && r[k].name[|r[k].name| - 4..] == ".jpg"
    {
      assert r[k] == RandomEntry(k - |images|, draws, fetched, fallback);
      EntryShape(k - |images|, draws, fetched, fallback);
    }
  }

  /** Every generated entry, downloaded or fallback, is an 800 x 800 picture with a `.jpg` name. */
  lemma EntryShape(idx: nat, draws: Draws, fetched: nat -> Option<string>, fallback: nat -> string)
    requires UnitDraws(draws)
    ensures var e := RandomEntry(idx, draws, fetched, fallback);
      e.width == 800 && e.height == 800 && e.name[|e.name| - 4..] == ".jpg"
  {
    var e := RandomEntry(idx, draws, fetched, fallback);
    var num := Decimal(idx);
    if fetched(idx).Some? {
      var kw := Keywords[ScaledIndex(draws(2 * idx), |Keywords|)];
      assert e.name == ("random-" + kw + "-" + num) + ".jpg";
    } else {
      assert e.name == ("fallback-" + num) + ".jpg";
    }
  }

  /** `images.filter((_, i) => i !== index)`, written over the last element. */
  function WithoutIndex(images: seq<Photo>, index: int): (r: seq<Photo>)
    ensures |r| <= |images|
    ensures 0 <= index < |images| ==> |r| == |images| - 1
    ensures !(0 <= index < |images|) ==> |r| == |images|
  {
    if |images| == 0 then []
    else WithoutIndex(images[..|images| - 1], index)
         + (if |images| - 1 == index then [] else [images[|images| - 1]])
  }

  /** `removeImage` cuts out exactly the photo at `index`; any other index leaves the list as it is. */
  lemma {:induction false} RemoveExactlyOne(images: seq<Photo>, index: int)
    ensures 0 <= index < |images| ==> WithoutIndex(images, index) == images[..index] + images[index + 1..]
    ensures !(0 <= index < |images|) ==> WithoutIndex(images, index) == images
  {
    if |images| > 0 {
      var n := |images| - 1;
      var init := images[..n];
      RemoveExactlyOne(init, index);
      if 0 <= index < n {
        assert init[..index] == images[..index];
        assert init[index + 1..] + [images[n]] == images[index + 1..];
      } else if index == n {
        assert images[..index] + images[index + 1..] == init;
      } else {
        assert init + [images[n]] == images;
      }
    }
  }

  /** The continue button fires `onNext`. */
  predicate CanContinue(images: seq<Photo>) {
    |images| >= MinImagesRequired
  }

  /** The label of the disabled continue button: how many photos are missing. */
  function MissingPhotos(images: seq<Photo>): Option<int> {
    if CanContinue(images) then None else Some(MinImagesRequired - |images|)
  }

  /** Until three photos are chosen, the label asks for 1 to 3 more, and exactly enough to reach 3. */
  lemma MissingPhotosBound(images: seq<Photo>)
    ensures MissingPhotos(images).Some? <==> |images| < 3
    ensures MissingPhotos(images).Some? ==>
      1 <= MissingPhotos(images).value <= 3 && |images| + MissingPhotos(images).value == 3
  {
  }

  /** The random-fill button is shown while the list is not full. */
  predicate FillButtonShown(images: seq<Photo>) {
    |images| < MaxImages
  }

  /** Pressing the random-fill button when it is shown yields a full list, after which it hides. */
  lemma FillHidesButton(images: seq<Photo>, draws: Draws, fetched: nat -> Option<string>, fallback: nat -> string)
    requires UnitDraws(draws) && FillButtonShown(images)
    ensures |RandomFill(images, draws, fetched, fallback)| == MaxImages
    ensures !FillButtonShown(RandomFill(images, draws, fetched, fallback))
  {
    RandomFillFillsUp(images, draws, fetched, fallback);
  }

  /** The parent's list of photos, as this screen changes it. */
  class PhotoList {
    var images: seq<Photo>

    ghost predicate Valid()
      reads this
    {
      |images| <= MaxImages
    }

    constructor ()
      ensures images == [] && Valid()
    {
      images := [];
    }

    /** `handleImageUpload`: `accepted` is false when the capacity alert is shown instead. */
    method HandleImageUpload(files: seq<SelectedFile>) returns (accepted: bool)
      modifies this
      ensures accepted <==> |old(images)| + |files| <= MaxImages
      ensures accepted ==> images == Uploaded(old(images), files).value
      ensures !accepted ==> images == old(images)
      ensures old(Valid()) ==> Valid()
    {
      if |images| + |files| > MaxImages {
        accepted := false;
        return;
      }
      var processed: seq<Option<Photo>> := [];
      for i := 0 to |files|
        invariant processed == ProcessAll(files[..i])
        invariant images == old(images)
      {
        var file := files[i];
        var validation := ValidateImageFile(file.file);
        var result: Option<Photo>;
        if !validation.valid {
          result := None;
        } else {
          match file.decoded
          case None =>
            result := None;
          case Some(d) =>
            result := Some(Photo(d.src, file.name, d.width, d.height));
        }
        assert result == Process(file);
        assert ProcessAll(files[..i + 1]) == ProcessAll(files[..i]) + [Process(files[i])];
        processed := processed + [result];
      }
      assert files[..|files|] == files;
      assert processed == ProcessAll(files);
      images := images + Compact(processed);
      accepted := true;
      assert images == old(images) + Compact(ProcessAll(files));
    }

    /** `generateRandomImages`. */
    method GenerateRandomImages(draws: Draws, fetched: nat -> Option<string>, fallback: nat -> string)
      requires UnitDraws(draws)
      modifies this
      ensures images == RandomFill(old(images), draws, fetched, fallback)
      ensures old(Valid()) ==> |images| == MaxImages && Valid()
    {
      if |images| <= MaxImages {
        RandomFillFillsUp(images, draws, fetched, fallback);
      }
      images := RandomFill(images, draws, fetched, fallback);
    }

    /** `removeImage(index)`. */
    method RemoveImage(index: int)
      modifies this
      ensures images == WithoutIndex(old(images), index)
      ensures old(Valid()) ==> Valid()
    {
      images := WithoutIndex(images, index);
    }

    /** The continue button: whether `onNext` fires. */
    method Continue() returns (next: bool)
      ensures next <==> |images| >= 3
      ensures next <==> MissingPhotos(images).None?
    {
      next := |images| >= MinImagesRequired;
    }
  }
}
