/**
 * `Document`: a page that loads static markdown content by URL and shows it once
 * it has arrived, with a load indicator meanwhile.
 *
 * The component is a class with its `_isMounted` field and its `loading` and
 * `content` state. `componentDidMount` is split at its `await`: the method that
 * starts the request, and the two ways the request settles. The content service
 * is left abstract: the calls made to it and the errors passed to `handleError`
 * are recorded.
 */
module DocumentPage {
  import opened Wrappers

  /** What `render` shows: the load indicator's `loading`, and the markdown, if any. */
  datatype DocView = DocView(loading: bool, markdown: Option<string>)

  class Document {
    const url: string
    var isMounted: bool
    var loading: bool
    var content: Option<string>
    /** Requests started by `componentDidMount` that have not settled. */
    var pending: nat
    /** The URLs asked of `getStaticContent`. */
    var requested: seq<string>
    /** The errors passed to `handleError`. */
    var handled: seq<string>

    /** Content is only ever stored together with `loading: false`. */
    predicate Valid()
      reads this
    {
      content.Some? ==> !loading
    }

    /** The constructor: loading, no content, not mounted. */
    constructor (url: string)
      ensures Valid() && this.url == url
      ensures !isMounted && loading && content == None && pending == 0 && requested == [] && handled == []
    {
      this.url := url;
      isMounted := false;
      loading := true;
      content := None;
      pending := 0;
      requested := [];
      handled := [];
    }

    /** `componentDidMount` up to its `await`: mark the component mounted, then ask for the content. */
    method ComponentDidMount()
      requires Valid()
      modifies this
      ensures Valid() && isMounted
      ensures requested == old(requested) + [url] && pending == old(pending) + 1
      ensures loading == old(loading) && content == old(content) && handled == old(handled)
    {
      isMounted := true;
      requested := requested + [url];
      pending := pending + 1;
    }

    /** The content arrived: stored, with loading over, only while still mounted. */
    method ContentArrived(text: string)
      requires Valid() && pending > 0
      modifies this
      ensures Valid() && pending == old(pending) - 1
      ensures old(isMounted) ==> content == Some(text) && !loading
      ensures !old(isMounted) ==> content == old(content) && loading == old(loading)
      ensures isMounted == old(isMounted) && requested == old(requested) && handled == old(handled)
    {
      pending := pending - 1;
      if !isMounted {
        return;
      }
      content := Some(text);
      loading := false;
    }

    /** The request failed: the error goes to `handleError` and loading is over, mounted or not. */
    method ContentFailed(error: string)
      requires Valid() && pending > 0
      modifies this
      ensures Valid() && pending == old(pending) - 1
      ensures handled == old(handled) + [error] && !loading
      ensures content == old(content) && isMounted == old(isMounted) && requested == old(requested)
    {
      pending := pending - 1;
      handled := handled + [error];
      loading := false;
    }

    /** `componentWillUnmount`. */
    method ComponentWillUnmount()
      requires Valid()
      modifies this
      ensures Valid() && !isMounted
      ensures loading == old(loading) && content == old(content) && pending == old(pending)
      ensures requested == old(requested) && handled == old(handled)
    {
      isMounted := false;
    }

    /** The render: the load indicator follows `loading`; the markdown shows iff the content is truthy. */
    function Render(): (v: DocView)
      reads this
      ensures v.loading == loading
      ensures v.markdown.Some? <==> content.Some? && content.value != ""
      ensures v.markdown.Some? ==> v.markdown == content
    {
      DocView(loading, if content.Some? && content.value != "" then content else None)
    }
  }

  /** While the load indicator shows, no markdown does. */
  lemma NoMarkdownWhileLoading(d: Document)
    requires d.Valid() && d.loading
    ensures d.Render().markdown == None
  {
  }
}
