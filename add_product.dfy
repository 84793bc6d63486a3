/**
 * The image list of the "add product" form: the URLs added so far and the
 * text of the URL input, `handleAddImage`, `handleRemoveImage`, and how the
 * list is submitted with the new product.
 */
module AddProduct {
  import opened Wrappers
  import opened JsText
  import JsArray

  /** The two pieces of form state: `imageUrls` and `newImageUrl`. */
  datatype ImageForm = ImageForm(imageUrls: seq<string>, newImageUrl: string)

  /**
   * `handleAddImage()`: when the trimmed input is non-empty and not yet in
   * the list, append it and clear the input; otherwise change nothing.
   */
  function AddImage(form: ImageForm): (r: ImageForm)
    ensures Trim(form.newImageUrl) == "" ==> r == form
    ensures Trim(form.newImageUrl) in form.imageUrls ==> r == form
    ensures Trim(form.newImageUrl) != "" && Trim(form.newImageUrl) !in form.imageUrls
      ==> r == ImageForm(form.imageUrls + [Trim(form.newImageUrl)], "")
  {
    var url := Trim(form.newImageUrl);
    if |url| > 0 && url !in form.imageUrls then ImageForm(form.imageUrls + [url], "") else form
  }

  /** The elements of `s`, which sit at positions `at, at + 1, …`, except the one at position `index`. */
  function ExceptAt(s: seq<string>, index: int, at: int): (r: seq<string>)
    ensures |r| <= |s|
    ensures forall u :: u in r ==> u in s
  {
    if s == [] then []
    else (if at != index then [s[0]] else []) + ExceptAt(s[1..], index, at + 1)
  }

  /** `handleRemoveImage(index)`: `imageUrls.filter((_, i) => i !== index)`. */
  function RemoveImage(form: ImageForm, index: int): (r: ImageForm)
    ensures r.newImageUrl == form.newImageUrl
    ensures |r.imageUrls| <= |form.imageUrls|
    ensures forall u :: u in r.imageUrls ==> u in form.imageUrls
  {
    form.(imageUrls := ExceptAt(form.imageUrls, index, 0))
  }

  /** Skipping position `index` of a run starting at `at` cuts out exactly that element, if it is in the run. */
  lemma {:induction false} ExceptAtCuts(s: seq<string>, index: int, at: int)
    ensures at <= index < at + |s| ==> ExceptAt(s, index, at) == s[..index - at] + s[index - at + 1..]
    ensures !(at <= index < at + |s|) ==> ExceptAt(s, index, at) == s
  {
    if s != [] {
      ExceptAtCuts(s[1..], index, at + 1);
      if at == index {
        assert s[index - at + 1..] == s[1..];
      } else if at < index < at + |s| {
        assert s[..index - at] == [s[0]] + s[1..][..index - at - 1];
        assert s[index - at + 1..] == s[1..][index - at..];
      } else {
        assert s == [s[0]] + s[1..];
      }
    }
  }

  /** Removing drops exactly the image at the index and keeps the rest in order; an index outside the list changes nothing. */
  lemma RemoveImageCuts(form: ImageForm, index: int)
    ensures 0 <= index < |form.imageUrls|
      ==> (RemoveImage(form, index).imageUrls == form.imageUrls[..index] + form.imageUrls[index + 1..])
    ensures !(0 <= index < |form.imageUrls|) ==> RemoveImage(form, index).imageUrls == form.imageUrls
    ensures RemoveImage(form, index).newImageUrl == form.newImageUrl
  {
    ExceptAtCuts(form.imageUrls, index, 0);
  }

  /** Removing the image just added gives back the list from before. */
  lemma RemoveUndoesAdd(form: ImageForm)
    requires AddImage(form) != form
    ensures RemoveImage(AddImage(form), |form.imageUrls|).imageUrls == form.imageUrls
  {
    RemoveImageCuts(AddImage(form), |form.imageUrls|);
  }

  /** The list holds no duplicates and only non-empty, trimmed URLs. */
  ghost predicate WellFormed(urls: seq<string>)
  {
    && JsArray.Distinct(urls)
    && (forall u :: u in urls ==> u != "" && Trimmed(u))
  }

  /** Appending a URL the list lacks keeps it free of duplicates. */
  lemma AppendFresh(urls: seq<string>, url: string)
    requires JsArray.Distinct(urls) && url !in urls
    ensures JsArray.Distinct(urls + [url])
  {
    var r := urls + [url];
    forall i, j | 0 <= i < j < |r| ensures r[i] != r[j] {
      assert r[i] == urls[i];
    }
  }

  /** Adding keeps the list well formed. */
  lemma AddKeepsWellFormed(form: ImageForm)
    requires WellFormed(form.imageUrls)
    ensures WellFormed(AddImage(form).imageUrls)
  {
    var url := Trim(form.newImageUrl);
    if |url| > 0 && url !in form.imageUrls {
      AppendFresh(form.imageUrls, url);
    }
  }

  /** Removing keeps the list well formed. */
  lemma RemoveKeepsWellFormed(form: ImageForm, index: int)
    requires WellFormed(form.imageUrls)
    ensures WellFormed(RemoveImage(form, index).imageUrls)
  {
    RemoveImageCuts(form, index);
    var s := form.imageUrls;
    if 0 <= index < |s| {
      var r := s[..index] + s[index + 1..];
      forall i, j | 0 <= i < j < |r| ensures r[i] != r[j] {
        assert r[i] == s[if i < index then i else i + 1];
        assert r[j] == s[if j < index then j else j + 1];
      }
      forall u | u in r ensures u in s {
        var i :| 0 <= i < |r| && r[i] == u;
        assert r[i] == s[if i < index then i else i + 1];
      }
    }
  }

  /** `imageUrls.length > 0 ? imageUrls : null`, the value submitted with the product. */
  function SubmittedImageUrls(urls: seq<string>): (r: Option<seq<string>>)
    ensures r.None? <==> urls == []
    ensures r.Some? ==> r.value == urls
  {
    if |urls| > 0 then Some(urls) else None
  }
}
