/**
 The `EmbeddedCode` component of `src/components/article/Embedded.js`: it
 injects a third-party HTML fragment, marks the container hidden on print when
 the fragment starts with a marker comment, and on mount rebuilds the
 fragment's scripts as real script elements appended to the container.
 */
module Embedded {
  import opened DataAttributes

  datatype Option<T> = None | Some(value: T)

  /** One `<script>` descriptor: its attributes and its inline code, if any. */
  datatype ScriptDescriptor<V> = ScriptDescriptor(attribs: map<string, V>, text: Option<string>)

  /** The value found at `content[0].scripts`: an array of descriptors, or anything else. */
  datatype Scripts<V> = ArrayOf(items: seq<ScriptDescriptor<V>>) | NotAnArray

  /** The content record the component renders. */
  datatype Content<V> = Content(
    embeddedCodeWithoutScript: Option<string>,
    caption: Option<string>,
    scripts: Scripts<V>)

  /**
   A script element built on mount, as far as the component shapes it: the
   attributes copied from its descriptor, its dataset and its text.
   */
  datatype ScriptElement<V> = ScriptElement(attribs: map<string, V>, dataset: map<string, V>, text: string)

  /** The record rendered: `content[0]`, or an empty record when there is none. */
  function RenderedContent<V>(content: seq<Content<V>>): (record: Content<V>)
    ensures |content| > 0 ==> record == content[0]
    ensures |content| == 0 ==> record.embeddedCodeWithoutScript.None? && record.caption.None? && record.scripts.NotAnArray?
  {
    if |content| > 0 then content[0] else Content(None, None, NotAnArray)
  }

  /** `script.text || ''`: the descriptor's text, or the empty string when it has none. */
  function TextOrEmpty(text: Option<string>): (s: string)
    ensures text == Some(s) || (text == None && s == "")
  {
    if text.Some? then text.value else ""
  }

  /**
   The element that mounting builds for one descriptor: it carries the
   descriptor's attributes, a dataset no larger than them, and the
   descriptor's text or `""`.
   */
  ghost function ElementFor<V>(script: ScriptDescriptor<V>): (element: ScriptElement<V>)
    ensures element.attribs == script.attribs
    ensures |element.dataset| <= |element.attribs|
    ensures script.text.Some? ==> element.text == script.text.value
    ensures script.text.None? ==> element.text == ""
  {
    DatasetSize(script.attribs);
    ScriptElement(script.attribs, Dataset(script.attribs), TextOrEmpty(script.text))
  }

  const HiddenOnPrintMarker: string := "<!--Hidden on print-->"

  /** `/^<!--Hidden on print-->/.test(embeddedCode)`: the code is present and starts with the marker. */
  predicate HiddenOnPrint(embeddedCode: Option<string>): (hidden: bool)
    ensures embeddedCode.None? ==> !hidden
    ensures hidden ==> |embeddedCode.value| >= |HiddenOnPrintMarker| && embeddedCode.value[0] == '<'
  {
    embeddedCode.Some? && HiddenOnPrintMarker <= embeddedCode.value
  }

  /** The class is applied exactly to the code that is the marker followed by anything. */
  lemma HiddenOnPrintIff(embeddedCode: Option<string>)
    ensures HiddenOnPrint(embeddedCode) <==> exists rest :: embeddedCode == Some(HiddenOnPrintMarker + rest)
  {
    if HiddenOnPrint(embeddedCode) {
      var s := embeddedCode.value;
      var rest := s[|HiddenOnPrintMarker|..];
      assert s == HiddenOnPrintMarker + rest;
    }
  }

  /** Code that does not start with `<`, such as code with leading whitespace, is never hidden. */
  lemma NotHiddenUnlessAtStart(code: string)
    requires |code| > 0 && code[0] != '<'
    ensures !HiddenOnPrint(Some(code))
  {
    assert HiddenOnPrintMarker[0] == '<';
  }

  /** A marker after leading whitespace, or after any text not starting with `<`, does not count. */
  lemma MarkerLaterNotHidden(before: string, after: string)
    requires |before| > 0 && before[0] != '<'
    ensures !HiddenOnPrint(Some(before + HiddenOnPrintMarker + after))
  {
    NotHiddenUnlessAtStart(before + HiddenOnPrintMarker + after);
  }

  /** The container `div` the fragment is injected into; its children grow on mount. */
  class Container<V> {
    var children: seq<ScriptElement<V>>

    constructor ()
      ensures children == []
    {
      children := [];
    }

    /** `node.appendChild(el)`. */
    method AppendChild(el: ScriptElement<V>)
      modifies this
      ensures children == old(children) + [el]
    {
      children := children + [el];
    }
  }

  class EmbeddedCode<V> {
    /** The `content` prop; absent is the empty sequence. */
    const content: seq<Content<V>>
    /** `this.embedded`, the container set by the `ref` callback. */
    var embedded: Container?<V>

    constructor (content: seq<Content<V>>)
      ensures this.content == content && embedded == null
    {
      this.content := content;
      embedded := null;
    }

    /**
     `_pickDatasetFromAttribs`: a fresh dataset filled from the attributes one
     key at a time; the input is a value and stays as it was.
     */
    method PickDatasetFromAttribs(attributes: map<string, V>) returns (dataset: map<string, V>)
      ensures dataset == Dataset(attributes)
    {
      dataset := map[];
      var remaining := attributes.Keys;
      while remaining != {}
        invariant remaining <= attributes.Keys
        invariant dataset == Dataset(attributes - remaining)
        decreases remaining
      {
        var key :| key in remaining;
        VisitOneMore(attributes, remaining, key);
        DatasetAdd(attributes - remaining, key, attributes[key]);
        if IsDataKey(key) {
          dataset := dataset[DatasetKey(key) := attributes[key]];
        }
        remaining := remaining - {key};
      }
      assert attributes - remaining == attributes;
    }

    /** The `ref` callback of the inner `div`: it records the rendered container. */
    method SetEmbedded(div: Container?<V>)
      modifies this`embedded
      ensures embedded == div
    {
      embedded := div;
    }

    /** `componentDidMount`: one script element per descriptor appended, in order. */
    method ComponentDidMount()
      modifies embedded
      ensures embedded != null && RenderedContent(content).scripts.ArrayOf? ==>
        var items := RenderedContent(content).scripts.items;
        && |embedded.children| == |old(embedded.children)| + |items|
        && embedded.children[..|old(embedded.children)|] == old(embedded.children)
        && forall i :: 0 <= i < |items| ==> embedded.children[|old(embedded.children)| + i] == ElementFor(items[i])
      ensures embedded != null && !RenderedContent(content).scripts.ArrayOf? ==>
        embedded.children == old(embedded.children)
    {
      var node := embedded;
      var scripts := RenderedContent(content).scripts;
      if node != null && scripts.ArrayOf? {
        var items := scripts.items;
        var i := 0;
        while i < |items|
          invariant 0 <= i <= |items|
          invariant |node.children| == |old(node.children)| + i
          invariant node.children[..|old(node.children)|] == old(node.children)
          invariant forall j :: 0 <= j < i ==> node.children[|old(node.children)| + j] == ElementFor(items[j])
        {
          var script := items[i];
          var dataset := PickDatasetFromAttribs(script.attribs);
          var scriptEle := ScriptElement(script.attribs, dataset, TextOrEmpty(script.text));
          assert scriptEle == ElementFor(script);
          node.AppendChild(scriptEle);
          i := i + 1;
        }
      }
    }

    /** `componentWillUnmount`: only the reference to the container is dropped. */
    method ComponentWillUnmount()
      modifies this`embedded
      ensures embedded == null
    {
      embedded := null;
    }

    /**
     The `hidden-print` class of the rendered container: never without a
     content record carrying embedded code.
     */
    predicate HiddenPrint(): (hidden: bool)
      ensures hidden ==> |content| > 0 && content[0].embeddedCodeWithoutScript.Some?
    {
      HiddenOnPrint(RenderedContent(content).embeddedCodeWithoutScript)
    }

    /**
     The container is hidden on print exactly when there is a content record
     whose code is present and starts with the marker.
     */
    lemma HiddenPrintIff()
      ensures HiddenPrint() <==>
        |content| > 0 && content[0].embeddedCodeWithoutScript.Some? &&
        exists rest :: content[0].embeddedCodeWithoutScript.value == HiddenOnPrintMarker + rest
    {
      HiddenOnPrintIff(RenderedContent(content).embeddedCodeWithoutScript);
    }
  }
}
