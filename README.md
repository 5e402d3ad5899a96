# Text-example widget: markup assembly

This project models how the page-builder widget `Widget_Text_Example`
assembles its HTML, and proves what that markup looks like. The widget writes
the same block twice, in two separate pieces of code:

- on the server, `render()` appends pieces to `$html` and prints the result;
- in the editor, the live-preview template inside `content_template()` appends
  pieces to `html` and prints that.

Both paths stop early, with no output, when there is neither an image nor a
title. Otherwise they write a wrapper `div`. Inside it comes a `figure` when
there is an image; on the server the image sits in a link when a link URL is
set. After that comes a content `div` when there is a title. The title element
uses the tag the host's validator returns for `title_size`. The title text goes
in unescaped.

## Layout

- `wrappers.dfy`: `Option`.
- `markup.dfy` (module `Markup`): HTML fragments as a tree.
  - `Element(tag, attrs, children)` is an element the widget writes itself.
  - `Raw(text)` is text from a host collaborator, inserted as is.
  - `Html` gives a fragment's text.
  - `Tokens` reads that text as opening tags, closing tags and opaque text.
  - `WellNested` checks those tokens with a stack.
  - `Shape` keeps only the element names and their nesting.
  - `CountTag` counts the elements with a given name.
- `render_attributes.dfy` (module `RenderAttributes`): the render-attribute
  store. The widget object and the editor view both keep one. It is a class
  with a map field from element key to the attributes added so far.
- `text_example.dfy` (module `TextExample`):
  - the settings, and the two presence tests: PHP `empty()` and JavaScript `!!`;
  - the host collaborators, as function-valued fields of `ServerHost` and `ClientHost`;
  - the shared template `Frame`;
  - the two spec functions `ServerMarkup` and `ClientMarkup`;
  - `TextExampleWidget.Render` and `ContentTemplate`. These two are written as
    the source writes them, appending to a string variable. Each is proved to
    print exactly `Html` of its spec function, and to leave the store as
    `ServerEntries` or `ClientEntries` gives it.
- `text_example_properties.dfy` (module `TextExampleProperties`): the
  properties of the two spec functions, and how the two paths compare.

The host collaborators are parameters and are not interpreted. They are:

- `Group_Control_Image_Size::get_attachment_image_html`, `wp_kses_post`,
  `Utils::validate_html_tag`, and the serialisation behind
  `get_render_attribute_string` and `add_inline_editing_attributes`;
- `elementor.imagesManager.getImageUrl`, `_.escape`,
  `elementor.helpers.validateHTMLTag`, and the view's attribute
  serialisation and inline-editing annotation.

A property that needs one of these to behave in a certain way says so in its
`requires`. For example, `FailsClosed` says the validator only ever answers
with a tag the `title_size` control offers.

Three behaviours of the code are worth stating, because one might expect otherwise:

- The two paths are not identical. The title class differs: the server writes
  `elementor-text-example-title` and the template writes
  `elementor-image-box-title`. Only the server wraps the image in a link. The
  presence tests differ on `"0"`.
- The render-attribute store is not free of state. Each server render adds
  the title's class and inline-editing attributes again
  (`ServerRenderAccumulates`).
- The only text the template escapes is the image URL.
  The title text is never escaped.

Two facts about the source explain parts of the model:

- `register_controls()` registers no `link` control and no `hover_animation`
  control. The link branch of `render()` is therefore reachable only if the
  host supplies `link[url]` itself.
- In the template, an undefined `hover_animation` is written as the text
  `undefined` (`JsText`).

## Model

| member | source | states |
|---|---|---|
| TextExample.TextExampleWidget.Render | includes/widgets/text-example.php:141-184 | render() prints exactly the markup of ServerMarkup on the store it starts from, or nothing. The store afterwards holds the title's class and inline-editing attributes, added exactly when the title is written. |
| TextExample.ContentTemplate | includes/widgets/text-example.php:189-235 | The template prints exactly the markup of ClientMarkup, or nothing. The view's store gains the image-box title class and the inline-editing attributes exactly when the title is truthy. |
| TextExample.ServerMarkup | includes/widgets/text-example.php:144-151 | render() writes nothing exactly when the image URL and the title both fail PHP's empty() test, that is, both are null, "" or "0". Otherwise the outermost element is the wrapper div with its class. |
| TextExample.ClientMarkup | includes/widgets/text-example.php:190-197 | The template writes nothing exactly when neither the image URL nor the title is truthy. The value "0" is truthy. Otherwise the outermost element is the wrapper div with its class. |
| TextExample.WrapperOpenSpelling | includes/widgets/text-example.php:151 | The wrapper's opening tag built from its class is the literal the source writes. |
| TextExample.FigureOpenSpelling | includes/widgets/text-example.php:161 | The figure's opening tag is the literal the source writes. |
| TextExample.ContentOpenSpelling | includes/widgets/text-example.php:165 | The content block's opening tag is the literal the source writes. |
| TextExample.LinkSpelled | includes/widgets/text-example.php:158 | The link string the source builds around the image is the markup of an `a` element. Its attribute text is the link's render-attribute string followed by `tabindex="-1"`, and it holds the image markup. |
| TextExample.TitleSpelled | includes/widgets/text-example.php:174 | The title element opens and closes with the same tag. Its attribute string is in the opening tag, and the text sits between the two tags unchanged. |
| RenderAttributes.Added | includes/widgets/text-example.php:168-170 | Adding attributes under a key appends them after the ones already recorded under that key. Every other key keeps its list. |
| RenderAttributes.Store.AddRenderAttribute | includes/widgets/text-example.php:168 | The store gains one attribute under the element key, after those already there. |
| RenderAttributes.Store.AddInlineEditingAttributes | includes/widgets/text-example.php:170 | The store gains what the host's inline-editing annotation gives for (key, toolbar), after those already there. |
| TextExampleProperties.ServerWrapperEncloses | includes/widgets/text-example.php:151-181 | Printed markup starts with the wrapper's opening tag and ends with `</div>`. It is exactly the spelling of its tag stream. That stream is the wrapper's opening tag, a well-nested interior and the wrapper's closing tag. |
| TextExampleProperties.ServerBlocks | includes/widgets/text-example.php:153-179 | The wrapper holds the figure block first exactly when there is an image, and the content block last exactly when there is a title. There is nothing else inside the wrapper. The content block's only child is the title element under the validated tag, with the title's attribute string and text. The figure holds the sanitised image markup, inside a link exactly when the link URL is non-empty. |
| TextExampleProperties.ServerCensus | includes/widgets/text-example.php:151-181 | The exact number of elements of every name among the elements render() writes itself; host markup and the title text are not looked into. The wrapper div is always there. The figure needs an image. The `a` needs an image and a link URL. The content div needs a title, and so does the title element under the validated tag. |
| TextExampleProperties.ServerFigureAndLink | includes/widgets/text-example.php:153-162 | If the title tag is neither `figure` nor `a`, one figure is written when there is an image and none otherwise. One link is written exactly when there is also a link URL. |
| TextExampleProperties.ServerWritesNoOtherTag | includes/widgets/text-example.php:174 | With a validator that fails closed, the widget writes no element of its own outside div, figure, a and the offered title tags, whatever `title_size` holds. For example, the widget writes no `script` element of its own; the title text is not looked into. |
| TextExampleProperties.ServerTitleVerbatim | includes/widgets/text-example.php:164-175 | With a title, the inner `Utils::is_empty` guard always passes. The title's attributes are the earlier ones, then the title class, then the inline-editing ones. The output contains `<tag attrs>title</tag>`, with the validated tag at both ends and the title text unescaped. |
| TextExampleProperties.ServerRenderAccumulates | includes/widgets/text-example.php:168-170 | A second render adds the title's class and inline-editing attributes a second time, after the first ones. |
| TextExampleProperties.ClientWrapperEncloses | includes/widgets/text-example.php:197-232 | Printed markup starts with the wrapper's opening tag and ends with `</div>`. The wrapper encloses a well-nested interior. |
| TextExampleProperties.ClientBlocks | includes/widgets/text-example.php:199-230 | The figure block comes first exactly when there is an image, and the content block last exactly when there is a title. The content block's only child is the title element under the validated tag. The figure always holds the bare `<img>`. |
| TextExampleProperties.ClientCensus | includes/widgets/text-example.php:197-232 | The exact number of elements of every name among the elements the template writes itself. It never writes an `a` element of its own. |
| TextExampleProperties.ClientWritesNoOtherTag | includes/widgets/text-example.php:218-226 | With a validator that fails closed, the template writes no element of its own outside div, figure and the offered title tags. |
| TextExampleProperties.ClientTitleVerbatim | includes/widgets/text-example.php:215-227 | The view's title attributes gain the image-box class, then the inline-editing ones. The output contains `<tag attrs>title</tag>`, with the validated tag at both ends and the title text unescaped. |
| TextExampleProperties.ClientImageEscaped | includes/widgets/text-example.php:199-212 | With an image, the output contains `<img src="` followed by the escaped URL that the resolver returns for the image's id, url, size and dimension. |
| TextExampleProperties.PathsAgree | includes/widgets/text-example.php:144-226 | Suppose neither the image URL nor the title is "0", no link URL is set, and both validators return the same tag. Then both paths print or both stay silent, and they write the same elements with the same nesting. |
| TextExampleProperties.ZeroTitleSplitsPaths | includes/widgets/text-example.php:145-191 | A title of "0" with an image URL that is absent or empty: render() prints nothing. The template prints the wrapper, whose only child is the content div holding the title element with the text "0". |
| TextExampleProperties.LinkSplitsPaths | includes/widgets/text-example.php:157-212 | With an image and a link URL, the two paths' element trees differ. The server's figure holds a link and the template's does not. |
| TextExampleProperties.TitleClassesDiffer | includes/widgets/text-example.php:168-222 | From the same store and with the same inline-editing attributes, the two paths record title attribute lists of the same length. The lists differ only at the added class: `elementor-text-example-title` against `elementor-image-box-title`. |

## Left out

- Control registration and the getters (lines 10-139). They are declarative metadata for the host and have no behaviour here.
- The host collaborators' implementations. They stay uninterpreted parameters:
  - image-size resolution, `wp_kses_post` and tag validation;
  - render-attribute serialisation and the inline-editing annotation;
  - `getImageUrl`, with the editor model it reads, and `_.escape`.
- `Utils::is_empty` is not part of this model's source. It is read as "null or the empty string". Under `! empty()` the guard passes for any reading that treats a string PHP calls non-empty as non-empty.
- Printing. `Utils::print_unescaped_internal_string` and `print` are I/O. The methods return what they would print, and `None` stands for printing nothing.
- Settings values that are neither strings nor absent. PHP arrays, numbers and booleans, and their conversions in `.`, `sprintf` and `+`, are not modelled. A missing `settings.image` object in the template, which would throw, is not modelled either.
- Nesting in the browser's reading. Well-nestedness is proved only for the elements the widget writes itself. Host markup and the title text are opaque text in the model, and they may contain tags: the title is inserted unescaped, so a title such as `</div><script>` would close the wrapper in a browser.
- The colour control's CSS selector (lines 125-135). It is styling passthrough.
- ServerFigureAndLink: counts figures and links only when the validated title tag is neither `figure` nor `a`. A validator that answered with those tags would add elements of that name, and ServerCensus states that case exactly.
