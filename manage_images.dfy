/** The admin gallery: the image list with its paths made relative to the backend, the
    sections per category, the image dialog, the checks before an image is saved, the form it
    is sent with, and switching an image on or off in place. The requests themselves are
    results here; the server's reply is a parameter. */
module ManageImages {
  import opened Optional
  import opened JsText

  /** `GalleryImage`. */
  datatype GalleryImage = GalleryImage(id: int, name: string, image: string,
                                       category: Option<int>, newsArticle: Option<int>, active: bool)

  datatype Category = Category(id: int, name: string)

  /** A file the user picked; only its identity matters. */
  datatype FileRef = FileRef(name: string)

  // ------------------------------------------------------------------ paths

  const BackendPrefix: string := "../backend"

  /** An image path prefixed with the backend directory unless it already starts with it. */
  function WithPrefix(url: string): (u: string)
    ensures StartsWith(u, BackendPrefix)
    ensures StartsWith(url, BackendPrefix) <==> u == url
  {
    if StartsWith(url, BackendPrefix) then url else BackendPrefix + url
  }

  /** The list as it is shown after loading or saving: every path prefixed. */
  function Normalise(images: seq<GalleryImage>): (r: seq<GalleryImage>)
    ensures |r| == |images|
    ensures forall k :: 0 <= k < |r| ==> r[k] == images[k].(image := WithPrefix(images[k].image))
  {
    seq(|images|, k requires 0 <= k < |images| => images[k].(image := WithPrefix(images[k].image)))
  }

  /** Normalising a normalised list changes nothing, and only the paths ever change. */
  lemma NormaliseIdempotent(images: seq<GalleryImage>)
    ensures Normalise(Normalise(images)) == Normalise(images)
    ensures forall k :: 0 <= k < |images| ==>
      var n := Normalise(images)[k];
      n.id == images[k].id && n.name == images[k].name && n.category == images[k].category
      && n.newsArticle == images[k].newsArticle && n.active == images[k].active
  {
  }

  // ------------------------------------------------------------------ sections

  /** The images of one category, in list order. */
  function InCategory(images: seq<GalleryImage>, id: int): (r: seq<GalleryImage>)
    ensures |r| <= |images|
    ensures forall k :: 0 <= k < |r| ==> r[k].category == Some(id)
  {
    if images == [] then []
    else (if images[0].category == Some(id) then [images[0]] else []) + InCategory(images[1..], id)
  }

  /** An image is in its category's list exactly when the gallery holds it. */
  lemma {:induction false} InCategoryMember(images: seq<GalleryImage>, id: int, img: GalleryImage)
    ensures img in InCategory(images, id) <==> img in images && img.category == Some(id)
  {
    if images != [] {
      InCategoryMember(images[1..], id, img);
      assert images == [images[0]] + images[1..];
    }
  }

  /** The sections: one per category that has images, in category order. */
  function Sections(categories: seq<Category>, images: seq<GalleryImage>): (ss: seq<(Category, seq<GalleryImage>)>)
    ensures |ss| <= |categories|
    ensures forall k :: 0 <= k < |ss| ==> ss[k].1 != [] && ss[k].1 == InCategory(images, ss[k].0.id)
  {
    if categories == [] then []
    else
      var c := categories[0];
      var imgs := InCategory(images, c.id);
      (if imgs != [] then [(c, imgs)] else []) + Sections(categories[1..], images)
  }

  /** A category with a section among `ss`. */
  predicate Listed(ss: seq<(Category, seq<GalleryImage>)>, c: Category) {
    exists k :: 0 <= k < |ss| && ss[k].0 == c
  }

  lemma ListedAppend(a: seq<(Category, seq<GalleryImage>)>, b: seq<(Category, seq<GalleryImage>)>, c: Category)
    ensures Listed(a + b, c) <==> Listed(a, c) || Listed(b, c)
  {
    if Listed(a + b, c) {
      var k :| 0 <= k < |a + b| && (a + b)[k].0 == c;
      if k >= |a| {
        assert b[k - |a|].0 == c;
      }
    }
    if Listed(a, c) {
      var k :| 0 <= k < |a| && a[k].0 == c;
      assert (a + b)[k].0 == c;
    }
    if Listed(b, c) {
      var k :| 0 <= k < |b| && b[k].0 == c;
      assert (a + b)[|a| + k].0 == c;
    }
  }

  /** A category gets a section exactly when some image belongs to it. */
  lemma {:induction false} SectionShown(categories: seq<Category>, images: seq<GalleryImage>, c: Category)
    ensures Listed(Sections(categories, images), c)
        <==> c in categories && exists img :: img in images && img.category == Some(c.id)
  {
    if categories != [] {
      SectionShown(categories[1..], images, c);
      var head := categories[0];
      var imgs := InCategory(images, head.id);
      var h := if imgs != [] then [(head, imgs)] else [];
      ListedAppend(h, Sections(categories[1..], images), c);
      assert Listed(h, c) <==> imgs != [] && head == c;
      if imgs != [] {
        InCategoryMember(images, head.id, imgs[0]);
      }
      if exists img :: img in images && img.category == Some(head.id) {
        var img :| img in images && img.category == Some(head.id);
        InCategoryMember(images, head.id, img);
      }
      assert c in categories <==> c == head || c in categories[1..];
    }
  }

  // ------------------------------------------------------------------ saving

  /** What `handleSave` does: nothing without an image in the dialog, one of three warnings,
      or a request to a path with the image and perhaps a file. */
  datatype SaveOutcome =
    | NoDialog
    | NameMissing
    | CategoryMissing
    | FileMissing
    | Send(path: string, image: GalleryImage, file: Option<FileRef>)

  /** `!currentImage.category`: no category, or the falsy id 0. */
  predicate HasCategory(img: GalleryImage) {
    img.category.Some? && img.category.value != 0
  }

  /** The checks, in their order: a name that is not only white space, a category, and a
      file for a new image (id 0). A new image goes to the create path with its file; an
      existing one to its update path, with a file only when one was picked. */
  function HandleSave(current: Option<GalleryImage>, file: Option<FileRef>): (o: SaveOutcome)
    ensures o.Send? <==> current.Some? && Trim(current.value.name) != [] && HasCategory(current.value)
                         && (current.value.id == 0 ==> file.Some?)
    ensures o.Send? ==> o.image == current.value && o.file == file
  {
    if current.None? then NoDialog
    else
      var img := current.value;
      if Trim(img.name) == [] then NameMissing
      else if !HasCategory(img) then CategoryMissing
      else if img.id == 0 then
        if file.None? then FileMissing else Send("/image/create", img, file)
      else Send("/image/update/" + IntToString(img.id), img, file)
  }

  /** The first failing check is the one reported: an empty name hides a missing category,
      and a missing category hides a missing file. */
  lemma SaveCheckOrder(img: GalleryImage, file: Option<FileRef>)
    ensures Trim(img.name) == [] ==> HandleSave(Some(img), file) == NameMissing
    ensures Trim(img.name) != [] && !HasCategory(img) ==> HandleSave(Some(img), file) == CategoryMissing
    ensures Trim(img.name) != [] && HasCategory(img) && img.id == 0 && file.None? ==> HandleSave(Some(img), file) == FileMissing
  {
  }

  /** New images are created and others updated under their own id. */
  lemma SavePath(img: GalleryImage, file: Option<FileRef>)
    requires HandleSave(Some(img), file).Send?
    ensures img.id == 0 ==> HandleSave(Some(img), file).path == "/image/create"
    ensures img.id != 0 ==> HandleSave(Some(img), file).path == "/image/update/" + IntToString(img.id)
  {
  }

  /** A field of the form the image is sent with. */
  datatype FormValue = TextValue(s: string) | FileValue(f: FileRef)

  /** `saveImages`' form: the name, the category and the article when they are set, the
      active flag, and the file when there is one. */
  function FormFields(img: GalleryImage, file: Option<FileRef>): (fs: seq<(string, FormValue)>)
    ensures |fs| >= 2 && fs[0] == ("name", TextValue(img.name))
  {
    [("name", TextValue(img.name))]
    + (if img.category.Some? then [("category", TextValue(IntToString(img.category.value)))] else [])
    + (if img.newsArticle.Some? then [("news_article", TextValue(IntToString(img.newsArticle.value)))] else [])
    + [("active", TextValue(if img.active then "true" else "false"))]
    + (if file.Some? then [("image", FileValue(file.value))] else [])
  }

  /** The keys the form carries: category and article exactly when set, the file exactly
      when picked, and always the name and the flag. */
  lemma FormKeys(img: GalleryImage, file: Option<FileRef>, key: string)
    ensures (exists k :: 0 <= k < |FormFields(img, file)| && FormFields(img, file)[k].0 == key) <==>
      key == "name" || key == "active" || (key == "category" && img.category.Some?)
      || (key == "news_article" && img.newsArticle.Some?) || (key == "image" && file.Some?)
  {
    var fs := FormFields(img, file);
    var a := [("name", TextValue(img.name))];
    var b := if img.category.Some? then [("category", TextValue(IntToString(img.category.value)))] else [];
    var c := if img.newsArticle.Some? then [("news_article", TextValue(IntToString(img.newsArticle.value)))] else [];
    var d := [("active", TextValue(if img.active then "true" else "false"))];
    var e := if file.Some? then [("image", FileValue(file.value))] else [];
    assert fs == a + b + c + d + e;
    if key == "active" {
      assert fs[|a| + |b| + |c|].0 == key;
    }
    if key == "category" && img.category.Some? {
      assert fs[1].0 == key;
    }
    if key == "news_article" && img.newsArticle.Some? {
      assert fs[|a| + |b|].0 == key;
    }
    if key == "image" && file.Some? {
      assert fs[|a| + |b| + |c| + |d|].0 == key;
    }
  }

  // ------------------------------------------------------------------ toggling

  /** The position of the first image with this id, as `find` picks it. */
  function FindById(images: seq<GalleryImage>, id: int): (k: Option<nat>)
    ensures k.Some? ==> k.value < |images| && images[k.value].id == id
                        && forall j :: 0 <= j < k.value ==> images[j].id != id
    ensures k.None? ==> forall j :: 0 <= j < |images| ==> images[j].id != id
  {
    if images == [] then None
    else if images[0].id == id then Some(0)
    else
      match FindById(images[1..], id)
      case None => None
      case Some(k) => Some(k + 1)
  }

  /** The list after switching the first image with this id: only its flag changes. */
  function Toggled(images: seq<GalleryImage>, id: int): (r: seq<GalleryImage>)
    ensures |r| == |images|
    ensures FindById(images, id).None? ==> r == images
    ensures FindById(images, id).Some? ==>
              var k := FindById(images, id).value;
              r[k] == images[k].(active := !images[k].active)
              && forall j :: 0 <= j < |r| && j != k ==> r[j] == images[j]
  {
    match FindById(images, id)
    case None => images
    case Some(k) => images[k := images[k].(active := !images[k].active)]
  }

  /** Switching twice restores the list. */
  lemma ToggleTwice(images: seq<GalleryImage>, id: int)
    ensures Toggled(Toggled(images, id), id) == images
  {
    match FindById(images, id)
    case None =>
    case Some(k) =>
      var once := Toggled(images, id);
      assert forall j :: 0 <= j < |once| ==> once[j].id == images[j].id;
      assert FindById(once, id) == Some(k);
  }

  /** The admin page's image state. */
  class ImagesContent {
    var images: seq<GalleryImage>
    var categories: seq<Category>
    var currentImage: Option<GalleryImage>
    var imagePreview: Option<string>
    var imageFile: Option<FileRef>
    var dialogOpen: bool

    constructor ()
      ensures images == [] && categories == [] && currentImage.None? && imagePreview.None?
      ensures imageFile.None? && !dialogOpen
    {
      images := [];
      categories := [];
      currentImage := None;
      imagePreview := None;
      imageFile := None;
      dialogOpen := false;
    }

    /** The image list the server sent, shown with prefixed paths. */
    method Loaded(serverImages: seq<GalleryImage>)
      modifies this
      ensures images == Normalise(serverImages)
      ensures categories == old(categories) && currentImage == old(currentImage)
      ensures imagePreview == old(imagePreview) && imageFile == old(imageFile) && dialogOpen == old(dialogOpen)
    {
      images := Normalise(serverImages);
    }

    /** `handleDialogOpen`: an existing image with its path as preview, or a fresh image
        with id 0, no name, path, category or article, switched on; no file either way. */
    method DialogOpen(image: Option<GalleryImage>)
      modifies this
      ensures image.Some? ==> currentImage == image && imagePreview == Some(image.value.image)
      ensures image.None? ==> currentImage == Some(GalleryImage(0, "", "", None, None, true)) && imagePreview.None?
      ensures imageFile.None? && dialogOpen
      ensures images == old(images) && categories == old(categories)
    {
      if image.Some? {
        currentImage := image;
        imagePreview := Some(image.value.image);
      } else {
        currentImage := Some(GalleryImage(0, "", "", None, None, true));
        imagePreview := None;
      }
      imageFile := None;
      dialogOpen := true;
    }

    /** `handleDialogClose`. */
    method DialogClose()
      modifies this
      ensures !dialogOpen && currentImage.None? && imagePreview.None? && imageFile.None?
      ensures images == old(images) && categories == old(categories)
    {
      dialogOpen := false;
      currentImage := None;
      imagePreview := None;
      imageFile := None;
    }

    /** `handleToggleActive`: switches the listed image with this id in place and returns
        the update it sends, with no file. The element passed in is the listed one, so the
        message reports its new state. */
    method ToggleActive(id: int, reply: Option<seq<GalleryImage>>) returns (sent: Option<(string, GalleryImage)>, activated: bool)
      modifies this
      ensures FindById(old(images), id).None? ==> sent.None?
      ensures FindById(old(images), id).Some? ==>
        var k := FindById(old(images), id).value;
        sent == Some(("/image/update/" + IntToString(id), Toggled(old(images), id)[k]))
        && activated == Toggled(old(images), id)[k].active
      ensures reply.Some? && sent.Some? ==> images == Normalise(reply.value)
      ensures reply.None? || sent.None? ==> images == Toggled(old(images), id)
      ensures categories == old(categories) && currentImage == old(currentImage)
      ensures imagePreview == old(imagePreview) && imageFile == old(imageFile) && dialogOpen == old(dialogOpen)
    {
      var found := FindById(images, id);
      sent := None;
      activated := false;
      if found.Some? {
        var k := found.value;
        images := images[k := images[k].(active := !images[k].active)];
        sent := Some(("/image/update/" + IntToString(images[k].id), images[k]));
        activated := images[k].active;
        if reply.Some? {
          images := Normalise(reply.value);
        }
      }
    }

    /** `handleSave`: the checks, then the request; after a request the dialog closes, and
        a successful reply replaces the list. */
    method Save(reply: Option<seq<GalleryImage>>) returns (o: SaveOutcome)
      modifies this
      ensures o == HandleSave(old(currentImage), old(imageFile))
      ensures !o.Send? ==> currentImage == old(currentImage) && imageFile == old(imageFile)
                           && dialogOpen == old(dialogOpen) && images == old(images)
      ensures o.Send? ==> !dialogOpen && currentImage.None? && imagePreview.None? && imageFile.None?
      ensures o.Send? && reply.Some? ==> images == Normalise(reply.value)
      ensures o.Send? && reply.None? ==> images == old(images)
      ensures categories == old(categories)
    {
      o := HandleSave(currentImage, imageFile);
      if o.Send? {
        if reply.Some? {
          images := Normalise(reply.value);
        }
        DialogClose();
      }
    }
  }
}
