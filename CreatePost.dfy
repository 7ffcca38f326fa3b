/** `components/CreatePost.tsx`: the new-post form. It holds the typed
    `content` and the loaded `image`, forwards them on submit when there is
    something to post, and then clears itself. */
module CreatePost {
  import opened Domain
  import opened Js

  /** What `onCreatePost(content, image)` receives; `None` is `undefined`. */
  datatype Request = Request(content: string, image: Option<string>)

  /** The guard of `handleSubmit`: text left after trimming, or a non-empty image. */
  predicate Accepts(content: string, image: Option<string>) {
    HasText(content) || Truthy(image)
  }

  /** The button's `disabled` condition, written as the component writes it:
      no text after trimming and no image. It holds exactly when
      `handleSubmit` would reject. */
  function SubmitDisabled(content: string, image: Option<string>): (disabled: bool)
    ensures disabled <==> !Accepts(content, image)
    ensures disabled ==> forall i :: 0 <= i < |content| ==> IsWhitespace(content[i])
  {
    HasTextIff(content);
    !HasText(content) && !Truthy(image)
  }

  /** What `handleSubmit` forwards: the content untrimmed, and an empty or
      missing image as `undefined`. */
  function Forwarded(content: string, image: Option<string>): (r: Request)
    ensures r.content == content
    ensures r.image.Some? <==> Truthy(image)
    ensures r.image.Some? ==> r.image == image
  {
    Request(content, if Truthy(image) then image else None)
  }

  /** The `content` and `image` state of the form. */
  class Form {
    var content: string
    var image: Option<string>

    constructor ()
      ensures content == "" && image == None
    {
      content := "";
      image := None;
    }

    /** The textarea's `onChange`. */
    method SetContent(text: string)
      modifies this
      ensures content == text && image == old(image)
    {
      content := text;
    }

    /** The file reader's `onload`: the data URL it produced becomes the preview. */
    method ImageLoaded(dataUrl: string)
      modifies this
      ensures image == Some(dataUrl) && content == old(content)
    {
      image := Some(dataUrl);
    }

    /** The preview's close button clears the image; the text stays. */
    method RemovePreview()
      modifies this
      ensures image == None && content == old(content)
    {
      image := None;
    }

    /** `handleSubmit`: forwards a request exactly when the guard accepts,
        then clears both fields; a rejected submit changes nothing. */
    method Submit() returns (sent: Option<Request>)
      modifies this
      ensures sent.Some? <==> Accepts(old(content), old(image))
      ensures sent.Some? ==> sent.value == Forwarded(old(content), old(image))
      ensures sent.Some? ==> content == "" && image == None
      ensures sent.None? ==> content == old(content) && image == old(image)
    {
      if HasText(content) || Truthy(image) {
        sent := Some(Forwarded(content, image));
        content := "";
        image := None;
      } else {
        sent := None;
      }
    }
  }

  /** A forwarded request always carries visible text or a non-empty image. */
  lemma ForwardedHasSomething(content: string, image: Option<string>)
    requires Accepts(content, image)
    ensures var r := Forwarded(content, image);
            (exists i :: 0 <= i < |r.content| && !IsWhitespace(r.content[i])) || (r.image.Some? && r.image.value != "")
  {
    HasTextIff(content);
  }
}
