# EmbeddedCode: dataset extraction, print marker and script splicing

This project models the logic inside the `EmbeddedCode` article component
(`src/components/article/Embedded.js`). The component injects a third-party
HTML fragment into a container `div`. It does three things that are not
presentation:

- **Dataset extraction** (`_pickDatasetFromAttribs`). An attribute name
  matching `^data[^a-z]` is kept. Its five-character match is replaced by the
  lower-cased fifth character, so `dataPicId` becomes `picId`. The value is
  carried over unchanged. This is the camel-cased `data-*` naming of the WHATWG
  HTML Living Standard, section 3.2.6.6 ("Embedding custom non-visible data
  with the data-* attributes").
- **Print marker** (`render`). The container gets the `hidden-print` class
  exactly when the embedded code begins, at index 0, with
  `<!--Hidden on print-->`.
- **Script splicing** (`componentDidMount` / `componentWillUnmount`). On
  mount, if the container reference is set and `content[0].scripts` is an
  array, one script element is appended per descriptor, in order. Each
  element carries the descriptor's attributes, its dataset and its text
  (`""` when absent). Unmount only drops the container reference.

Files:

- `dataset.dfy`, module `DataAttributes`: the key-rename rule (`IsDataKey`,
  `DatasetKey`), its inverse `AttributeKey` (dataset name back to attribute
  name), and the specification `Dataset(attributes)` of the whole extraction,
  with lemmas about it.
- `embedded.dfy`, module `Embedded`: the content and script records, the
  print-marker predicate, the container `div` as class `Container` with a
  `children` sequence, and the component as class `EmbeddedCode`, whose
  methods are the loops of the source.

`PickDatasetFromAttribs` is written as the source's loop over the attribute
keys, filling a fresh map. Its postcondition ties the result to `Dataset`.
Under the model's ASCII lower-casing the rename is injective on matching keys
(`DatasetKeyInjective`), so within the model the order in which the loop
visits keys cannot change the result. Attribute maps
are values here, so the input is left untouched by construction.

Values of attributes are an opaque type parameter `V`. Keys are `string`.
Case conversion is ASCII only.

## Model

| member | source | states |
|---|---|---|
| DataAttributes.IsDataKey | src/components/article/Embedded.js:42-43 | `reg.test(key)`: a matching key starts with `data` and is longer; `data` followed by an upper-case letter always matches, followed by a lower-case letter never (examples in `DataKeyExamples`, the reachable names in `DatasetKeyImage`) |
| DataAttributes.DataKeyExamples | src/components/article/Embedded.js:42-44 | `dataWidth`, `dataPicId`, `data-x`, `data1` match and rename to `width`, `picId`, `-x`, `1`; `id`, `datax`, `Data-x` and bare `data` do not match |
| DataAttributes.ToLower | src/components/article/Embedded.js:44 | ASCII lower-casing never yields an upper-case letter, and yields a lower-case letter exactly for letters |
| DataAttributes.DatasetKey | src/components/article/Embedded.js:44 | the renamed key is non-empty, four characters shorter, does not start with an upper-case letter, and keeps everything after the fifth character |
| DataAttributes.AttributeKeyOfDatasetKey | src/components/article/Embedded.js:42-44 | every matching attribute name is recovered from its dataset key by the inverse rename |
| DataAttributes.DatasetKeyOfAttributeKey | src/components/article/Embedded.js:44 | every name not starting with an upper-case letter is the dataset key of its attribute name |
| DataAttributes.DatasetKeyInjective | src/components/article/Embedded.js:41-46 | two different matching keys never produce the same dataset key, so no entry overwrites another |
| DataAttributes.DatasetKeysInjective | src/components/article/Embedded.js:41-46 | the same injectivity, for all pairs of matching keys at once |
| DataAttributes.DatasetKeyImage | src/components/article/Embedded.js:44 | the possible dataset keys are exactly the non-empty names not starting with an upper-case letter |
| DataAttributes.Dataset | src/components/article/Embedded.js:40-48 | the object the helper returns, one entry per matching key under its renamed key; what it holds is stated by `DatasetLookup`, `DatasetOnlyFromDataKeys`, `DatasetHasDataKey` and `DatasetSize` |
| DataAttributes.DatasetLookup | src/components/article/Embedded.js:40-48 | a name is in the dataset if and only if it is a dataset name whose attribute name is an input key; its value is that input value |
| DataAttributes.DatasetOnlyFromDataKeys | src/components/article/Embedded.js:42-45 | every dataset key comes from a matching input key and holds that key's value; nothing is passed through |
| DataAttributes.DatasetHasDataKey | src/components/article/Embedded.js:43-45 | every matching input key appears under its renamed key with its own value |
| DataAttributes.DatasetAdd | src/components/article/Embedded.js:41-47 | visiting one more attribute sets its renamed key when it matches and changes nothing otherwise |
| DataAttributes.VisitOneMore | src/components/article/Embedded.js:41 | the attributes visited grow by exactly the key taken out of those still to visit |
| DataAttributes.NonDataKeyDropped | src/components/article/Embedded.js:42-43 | removing a non-matching attribute does not change the dataset |
| DataAttributes.DatasetKeysCount | src/components/article/Embedded.js:41-46 | a set of matching keys has as many dataset keys as members |
| DataAttributes.DatasetSize | src/components/article/Embedded.js:40-48 | the dataset has exactly one entry per matching attribute, hence never more entries than the input |
| DataAttributes.DatasetExample | src/components/article/Embedded.js:31-32 | `{ dataWidth: 100, dataPicId: 'xn3K8s', id: 'foo' }` gives `{ width: 100, picId: 'xn3K8s' }` |
| Embedded.EmbeddedCode.PickDatasetFromAttribs | src/components/article/Embedded.js:39-49 | the loop over the attribute keys returns exactly `Dataset(attributes)` |
| Embedded.HiddenOnPrint | src/components/article/Embedded.js:97-100 | `hiddenPrintReg.test(embeddedCode)`: absent code is never hidden, and hidden code is at least as long as the marker and starts with `<` (the exact condition in `HiddenOnPrintIff`) |
| Embedded.HiddenOnPrintIff | src/components/article/Embedded.js:97-100 | the code is hidden on print if and only if it is present and equals the marker followed by some text |
| Embedded.NotHiddenUnlessAtStart | src/components/article/Embedded.js:97-100 | code whose first character is not `<`, such as code with leading whitespace, is not hidden |
| Embedded.MarkerLaterNotHidden | src/components/article/Embedded.js:97-100 | a marker that follows text not starting with `<` does not hide the code |
| Embedded.RenderedContent | src/components/article/Embedded.js:78 | `_.get(this.props, ['content', 0], {})`: the first content record, or an empty record without code, caption or scripts when there is none |
| Embedded.EmbeddedCode.HiddenPrint | src/components/article/Embedded.js:100 | the `hidden-print` decision of `render`: never taken without a first content record carrying embedded code (the exact condition in `HiddenPrintIff`) |
| Embedded.EmbeddedCode.HiddenPrintIff | src/components/article/Embedded.js:78-100 | the rendered container is hidden on print if and only if there is a content record whose code is present and starts with the marker |
| Embedded.TextOrEmpty | src/components/article/Embedded.js:66 | `script.text \|\| ''`: the descriptor's text when present, otherwise the empty string |
| Embedded.ElementFor | src/components/article/Embedded.js:62-66 | the element built for one descriptor carries its attributes, a dataset no larger than them, and its text or `""` |
| Embedded.Container.AppendChild | src/components/article/Embedded.js:68 | appending adds the element at the end and keeps the earlier children |
| Embedded.EmbeddedCode.constructor | src/components/article/Embedded.js:27-29 | a new component holds its `content` prop and no container reference |
| Embedded.EmbeddedCode.SetEmbedded | src/components/article/Embedded.js:101 | the `ref` callback records the rendered container |
| Embedded.EmbeddedCode.ComponentDidMount | src/components/article/Embedded.js:58-70 | with a container and an array of scripts, exactly one element per descriptor is appended, in order, element i holding descriptor i's attributes, its dataset and its text or `""`; earlier children are unchanged; otherwise the children are unchanged |
| Embedded.EmbeddedCode.ComponentWillUnmount | src/components/article/Embedded.js:73-75 | unmounting clears the container reference and modifies nothing else |

## Left out

- ComponentDidMount and Container.AppendChild: running the appended scripts is not modelled. An inline script runs inside `node.appendChild` and may add, move or remove the container's children. So "element i at position |old children| + i, earlier children unchanged" holds for the modelled child buffer, not for the live DOM after the scripts have run.
- `emitLoadEvent`, `window.dispatchEvent` and the `onload` handler: they are asynchronous browser events whose firing depends on the network.
- `lodash/merge` onto a live DOM element: the element is modelled as a record of the attributes, the dataset and the text.
- ComponentDidMount: the exception path of the element's `dataset` setter is not modelled. `_.merge` copies the dataset into the element's live `DOMStringMap` one key at a time. That setter throws a `SyntaxError` for a name with `-` followed by a letter `a`..`z`, such as the `-x` that `data-x` renames to, and for names that are not valid attribute names. Such a throw ends the loop, so that descriptor and every later one get no element. "Exactly one element per descriptor" holds only when no setter throws.
- React rendering, JSX, `dangerouslySetInnerHTML`, the caption block and the class composition with `classnames` and the stylesheets: they are UI framework plumbing. Only the `hidden-print` decision is modelled.
- `AlignedEmbedded` and `BlockAlignmentWrapper`: the wrapper is a higher-order component whose source `./BlockAlignmentWrapper` is not part of this model.
- Unicode `toLowerCase`: case conversion is ASCII only, so the collisions described in the next line cannot arise in the model.
- JavaScript object key order: the attribute map is a Dafny `map`. The order is irrelevant only inside the ASCII model, where `DatasetKeyInjective` holds. With the source's Unicode `toLowerCase`, two matching keys can rename to the same key (`dataÉ` and `dataé` both give `é`; `dataK` and `data` followed by the Kelvin sign both give `k`). The source then keeps the value of whichever key `forEach` visits last; the model does not capture that.
- The special key `__proto__`: `data__proto__` renames to `__proto__`, which a plain JavaScript object does not store as an own key. The model stores it like any other key.
- The array-like case of `lodash/forEach`: an attribute object with a numeric `length` property would be iterated by index. The model iterates over the keys.
- Props that are not records: an absent `content` prop is the empty sequence, an absent `attribs` is the empty map, and a missing or falsy `text` is `None`. A non-string `text`, such as a number, is converted to a string when it is assigned; the model's text is always a string. A descriptor that is `null`, on which the source throws, is not modelled. Neither is a `null` content record (`content: [null]`): `_.get` then returns `null` instead of the `{}` default, and `render` throws when it reads `embeddedCodeWithoutScript`. A `seq<Content>` cannot hold such a value.
- Non-string embedded code: the regular-expression test converts such a value to a string first. The model's code is an optional string, so this conversion is not modelled; an absent code (`undefined`) is never hidden.
