/** The public page of one news article: the gallery of its active images, with their
    paths made relative to the backend, and the carousel's next and previous buttons. */
module NewsArticlePage {
  import opened Optional
  import opened JsText

  /** An image as the image list returns it. */
  datatype Image = Image(id: int, name: string, image: string, category: Option<int>, newsArticle: int, active: bool)

  // ------------------------------------------------------------------ carousel

  /** `nextImage`: from the last image back to the first, otherwise one on. */
  function NextImage(index: int, count: nat): (n: int)
    ensures 0 <= index < count ==> 0 <= n < count
  {
    if index == count - 1 then 0 else index + 1
  }

  /** `prevImage`: from the first image to the last, otherwise one back. */
  function PrevImage(index: int, count: nat): (p: int)
    ensures 0 <= index < count ==> 0 <= p < count
  {
    if index == 0 then count - 1 else index - 1
  }

  /** Back after forward, and forward after back, return to the same image. */
  lemma PrevUndoesNext(index: int, count: nat)
    requires 0 <= index < count
    ensures PrevImage(NextImage(index, count), count) == index
    ensures NextImage(PrevImage(index, count), count) == index
  {
  }

  /** `k` presses of the next button. */
  function Forward(index: int, count: nat, k: nat): int {
    if k == 0 then index else NextImage(Forward(index, count, k - 1), count)
  }

  /** Pressing next `k` times, for at most a full turn, moves `k` images on, round the
      carousel. */
  lemma ForwardWraps(index: int, count: nat, k: nat)
    requires 0 <= index < count && k <= count
    ensures Forward(index, count, k) == if index + k < count then index + k else index + k - count
  {
    if index + k < count {
      ForwardStraight(index, count, k);
    } else {
      ForwardToStart(index, count);
      ForwardCompose(index, count, count - index, k - (count - index));
      ForwardStraight(0, count, index + k - count);
    }
  }

  /** A full turn of the carousel returns to the image it started from. */
  lemma FullTurn(index: int, count: nat)
    requires 0 <= index < count
    ensures Forward(index, count, count) == index
  {
    ForwardWraps(index, count, count);
  }

  /** Short of the last image, each press moves one on. */
  lemma {:induction false} ForwardStraight(index: int, count: nat, k: nat)
    requires 0 <= index && index + k < count
    ensures Forward(index, count, k) == index + k
  {
    if k > 0 {
      ForwardStraight(index, count, k - 1);
    }
  }

  /** From any image, the presses up to the end of the list land on the first one. */
  lemma ForwardToStart(index: int, count: nat)
    requires 0 <= index < count
    ensures Forward(index, count, count - index) == 0
  {
    ForwardStraight(index, count, count - index - 1);
  }

  /** Pressing `a` times and then `b` times is pressing `a + b` times. */
  lemma {:induction false} ForwardCompose(index: int, count: nat, a: nat, b: nat)
    ensures Forward(index, count, a + b) == Forward(Forward(index, count, a), count, b)
  {
    if b > 0 {
      ForwardCompose(index, count, a, b - 1);
    }
  }

  /** With no images the buttons are not shown, and pressing them would leave the range. */
  lemma EmptyGalleryLeavesRange()
    ensures NextImage(0, 0) == 1 && PrevImage(0, 0) == -1
  {
  }

  // ------------------------------------------------------------------ gallery

  const BackendPrefix: string := "../../backend"

  /** The image path relative to the page: prefixed unless it already is. */
  function WithPrefix(url: string): (u: string)
    ensures StartsWith(u, BackendPrefix)
    ensures StartsWith(url, BackendPrefix) <==> u == url
  {
    if StartsWith(url, BackendPrefix) then url else BackendPrefix + url
  }

  /** Prefixing twice is prefixing once. */
  lemma WithPrefixIdempotent(url: string)
    ensures WithPrefix(WithPrefix(url)) == WithPrefix(url)
  {
  }

  /** An image shown in the article's gallery. */
  predicate Shown(img: Image, articleId: string) {
    ParseInt(articleId) == Some(img.newsArticle) && img.active
  }

  /** The gallery: the active images of the article, in list order, with prefixed paths. */
  function ArticleImages(images: seq<Image>, articleId: string): (g: seq<Image>)
    ensures |g| <= |images|
    ensures forall k :: 0 <= k < |g| ==> g[k].active && StartsWith(g[k].image, BackendPrefix)
  {
    if images == [] then []
    else
      var img := images[0];
      (if Shown(img, articleId) then [img.(image := WithPrefix(img.image))] else [])
        + ArticleImages(images[1..], articleId)
  }

  /** An image is in the gallery exactly when the list holds an active image of the article
      that it is, path prefixed. */
  lemma {:induction false} ArticleImagesMember(images: seq<Image>, articleId: string, g: Image)
    ensures g in ArticleImages(images, articleId) <==>
      exists i :: 0 <= i < |images| && Shown(images[i], articleId) && g == images[i].(image := WithPrefix(images[i].image))
  {
    if images != [] {
      ArticleImagesMember(images[1..], articleId, g);
      if exists i :: 0 <= i < |images[1..]| && Shown(images[1..][i], articleId)
          && g == images[1..][i].(image := WithPrefix(images[1..][i].image)) {
        var i :| 0 <= i < |images[1..]| && Shown(images[1..][i], articleId)
          && g == images[1..][i].(image := WithPrefix(images[1..][i].image));
        assert images[i + 1] == images[1..][i];
      }
      if exists i :: 0 <= i < |images| && Shown(images[i], articleId) && g == images[i].(image := WithPrefix(images[i].image)) {
        var i :| 0 <= i < |images| && Shown(images[i], articleId) && g == images[i].(image := WithPrefix(images[i].image));
        if i > 0 {
          assert images[1..][i - 1] == images[i];
        }
      }
    }
  }

  /** Building the gallery from lists that already carry the prefix changes nothing more:
      the gallery of a gallery is itself. */
  lemma {:induction false} ArticleImagesIdempotent(images: seq<Image>, articleId: string)
    ensures ArticleImages(ArticleImages(images, articleId), articleId) == ArticleImages(images, articleId)
  {
    if images != [] {
      var img := images[0];
      var rest := ArticleImages(images[1..], articleId);
      ArticleImagesIdempotent(images[1..], articleId);
      var g := ArticleImages(images, articleId);
      if Shown(img, articleId) {
        var img' := img.(image := WithPrefix(img.image));
        assert g == [img'] + rest;
        assert g[0] == img' && g[1..] == rest;
        WithPrefixIdempotent(img.image);
        assert Shown(img', articleId) && img'.(image := WithPrefix(img'.image)) == img';
      } else {
        assert g == rest;
      }
    }
  }

  /** An id that is not a number shows no images. */
  lemma NoNumberNoImages(images: seq<Image>, articleId: string)
    requires ParseInt(articleId).None?
    ensures ArticleImages(images, articleId) == []
  {
    if ArticleImages(images, articleId) != [] {
      var g := ArticleImages(images, articleId)[0];
      ArticleImagesMember(images, articleId, g);
    }
  }
}
