/** The text-example widget's markup: the server's render() and the editor's
    live-preview template. Both build one string by appending pieces; each is
    proved to write exactly the markup of a fragment tree given here as a
    function of the settings, the render-attribute entries it starts from and
    the host collaborators it calls. */
module TextExample {

  import opened Wrappers
  import opened Markup
  import opened RenderAttributes

  // ---------------------------------------------------------------------------
  // Settings and the two presence tests

  /** One setting as the host hands it over: missing (PHP null, JavaScript
      undefined) or a string. */
  datatype Field = Absent | Text(s: string)

  /** PHP's `empty()`: null, "" and "0" are empty. */
  predicate PhpEmpty(f: Field)
  {
    f.Absent? || f.s == "" || f.s == "0"
  }

  /** JavaScript's `!!`: undefined and "" are false; "0" is true. */
  predicate JsTruthy(f: Field)
  {
    f.Text? && f.s != ""
  }

  /** `Utils::is_empty`, read as null or the empty string. */
  predicate UtilsIsEmpty(f: Field)
  {
    f.Absent? || f.s == ""
  }

  /** What JavaScript's `+` writes for a setting: undefined becomes "undefined". */
  function JsText(f: Field): string
  {
    if f.Absent? then "undefined" else f.s
  }

  /** The settings the widget reads (`image[url]`, `image[id]`, `thumbnail_size`,
      `thumbnail_custom_dimension`, `link[url]`, `title_text`, `title_size`,
      `hover_animation`). The custom dimension is passed to the host untouched,
      so its serialised form stands for it. */
  datatype Settings = Settings(
    imageUrl: Field,
    imageId: Field,
    thumbnailSize: Field,
    thumbnailCustomDimension: Field,
    linkUrl: Field,
    titleText: Field,
    titleSize: Field,
    hoverAnimation: Field)

  // ---------------------------------------------------------------------------
  // Host collaborators

  /** What render() calls on the host, as functions of their arguments. */
  datatype ServerHost = ServerHost(
    // Group_Control_Image_Size::get_attachment_image_html( settings, size group, image key )
    attachmentImageHtml: (Settings, string, string) -> string,
    // wp_kses_post
    ksesPost: string -> string,
    // Utils::validate_html_tag
    validateHtmlTag: Field -> string,
    // the serialisation behind get_render_attribute_string
    attributeString: seq<Attr> -> string,
    // what add_inline_editing_attributes( key, toolbar ) adds
    inlineEditing: (string, string) -> seq<Attr>)

  /** The image description the template hands to the URL resolver. The
      editor model it also passes is part of the host. */
  datatype ImageRef = ImageRef(id: Field, url: Field, size: Field, dimension: Field)

  /** What the template calls on the editor. */
  datatype ClientHost = ClientHost(
    // elementor.imagesManager.getImageUrl
    getImageUrl: ImageRef -> string,
    // _.escape
    escape: string -> string,
    // elementor.helpers.validateHTMLTag
    validateHtmlTag: Field -> string,
    // the serialisation behind view.getRenderAttributeString
    attributeString: seq<Attr> -> string,
    // what view.addInlineEditingAttributes( key, toolbar ) adds
    inlineEditing: (string, string) -> seq<Attr>)

  // ---------------------------------------------------------------------------
  // Constant pieces

  const WrapperAttrs := " class=\"elementor-text-example-wrapper\""
  const FigureAttrs := " class=\"elementor-text-example-img\""
  const ContentAttrs := " class=\"elementor-text-example-content\""
  const LinkTail := " tabindex=\"-1\""
  const ServerTitleClass := "elementor-text-example-title"
  const ClientTitleClass := "elementor-image-box-title"
  const TitleKey := "title_text"
  const LinkKey := "link"
  const InlineToolbar := "none"

  /** The opening tags both paths write, built from the attribute texts
      above; WrapperOpenSpelling and its neighbours spell them out. */
  const WrapperOpenHtml := OpenTag("div", WrapperAttrs)
  const FigureOpenHtml := OpenTag("figure", FigureAttrs)
  const ContentOpenHtml := OpenTag("div", ContentAttrs)

  lemma WrapperOpenSpelling()
    ensures WrapperOpenHtml == "<div class=\"elementor-text-example-wrapper\">"
  {
    calc {
      WrapperOpenHtml;
      "<" + "div" + WrapperAttrs + ">";
      "<" + "div" + " class=\"elementor-text-example-wrapper\"" + ">";
      { WrapperOpenJoined(); }
      "<div class=\"elementor-text-example-wrapper\">";
    }
  }

  /** The pieces of the wrapper opening tag, joined; kept on its own so the
      solver sees only literals. */
  lemma WrapperOpenJoined()
    ensures "<" + "div" + " class=\"elementor-text-example-wrapper\"" + ">" == "<div class=\"elementor-text-example-wrapper\">"
  {
  }

  lemma FigureOpenSpelling()
    ensures FigureOpenHtml == "<figure class=\"elementor-text-example-img\">"
  {
    calc {
      FigureOpenHtml;
      "<" + "figure" + FigureAttrs + ">";
      "<" + "figure" + " class=\"elementor-text-example-img\"" + ">";
      { FigureOpenJoined(); }
      "<figure class=\"elementor-text-example-img\">";
    }
  }

  /** The pieces of the figure opening tag, joined; kept on its own so the
      solver sees only literals. */
  lemma FigureOpenJoined()
    ensures "<" + "figure" + " class=\"elementor-text-example-img\"" + ">" == "<figure class=\"elementor-text-example-img\">"
  {
  }

  lemma ContentOpenSpelling()
    ensures ContentOpenHtml == "<div class=\"elementor-text-example-content\">"
  {
    calc {
      ContentOpenHtml;
      "<" + "div" + ContentAttrs + ">";
      "<" + "div" + " class=\"elementor-text-example-content\"" + ">";
      { ContentOpenJoined(); }
      "<div class=\"elementor-text-example-content\">";
    }
  }

  /** The pieces of the content opening tag, joined; kept on its own so the
      solver sees only literals. */
  lemma ContentOpenJoined()
    ensures "<" + "div" + " class=\"elementor-text-example-content\"" + ">" == "<div class=\"elementor-text-example-content\">"
  {
  }

  // ---------------------------------------------------------------------------
  // The markup each path writes

  /** The title element: `<tag attributes>text</tag>`. */
  function TitleElement(tag: string, attributeText: string, text: string): Node
  {
    Element(tag, " " + attributeText, [Raw(text)])
  }

  /** The render-attribute entries once the title's class and its
      inline-editing attributes are added, in that order. */
  function WithTitleAttributes(entries: Entries, titleClass: string, inlineEditing: (string, string) -> seq<Attr>): Entries
  {
    Added(Added(entries, TitleKey, [Attr("class", titleClass)]), TitleKey, inlineEditing(TitleKey, InlineToolbar))
  }

  /** The template both paths share: a wrapper holding the figure block when
      there is an image (the image markup inside a figure) and then the
      content block when there is a title (the title elements inside a
      content div). */
  function FigureBlock(image: Option<Node>): seq<Node>
  {
    if image.Some? then [Element("figure", FigureAttrs, [image.value])] else []
  }

  function ContentBlock(title: Option<seq<Node>>): seq<Node>
  {
    if title.Some? then [Element("div", ContentAttrs, title.value)] else []
  }

  function Frame(image: Option<Node>, title: Option<seq<Node>>): Node
  {
    Element("div", WrapperAttrs, FigureBlock(image) + ContentBlock(title))
  }

  predicate ServerHasImage(s: Settings) { !PhpEmpty(s.imageUrl) }

  predicate ServerHasContent(s: Settings) { !PhpEmpty(s.titleText) }

  /** Whether render() writes the title element (the inner guard). */
  predicate ServerHasTitle(s: Settings) { ServerHasContent(s) && !UtilsIsEmpty(s.titleText) }

  /** The render-attribute entries after render(). */
  function ServerEntries(s: Settings, entries: Entries, host: ServerHost): Entries
  {
    if ServerHasTitle(s) then WithTitleAttributes(entries, ServerTitleClass, host.inlineEditing) else entries
  }

  /** The sanitised image markup, wrapped in a link when a link URL is set. */
  function ServerImage(s: Settings, entries: Entries, host: ServerHost): Node
  {
    var imageHtml := host.ksesPost(host.attachmentImageHtml(s, "thumbnail", "image"));
    if PhpEmpty(s.linkUrl) then Raw(imageHtml)
    else Element("a", " " + host.attributeString(Of(entries, LinkKey)) + LinkTail, [Raw(imageHtml)])
  }

  function ServerFigureImage(s: Settings, entries: Entries, host: ServerHost): Option<Node>
  {
    if ServerHasImage(s) then Some(ServerImage(s, entries, host)) else None
  }

  function ServerTitle(s: Settings, entries: Entries, host: ServerHost): seq<Node>
  {
    if ServerHasTitle(s) then
      var attributeText := host.attributeString(Of(ServerEntries(s, entries, host), TitleKey));
      [TitleElement(host.validateHtmlTag(s.titleSize), attributeText, s.titleText.s)]
    else []
  }

  function ServerContentTitle(s: Settings, entries: Entries, host: ServerHost): Option<seq<Node>>
  {
    if ServerHasContent(s) then Some(ServerTitle(s, entries, host)) else None
  }

  /** What render() prints; None when it returns without printing. */
  function ServerMarkup(s: Settings, entries: Entries, host: ServerHost): (r: Option<Node>)
    ensures r.None? <==> !ServerHasImage(s) && !ServerHasContent(s)
    ensures r.Some? ==> r.value.Element? && r.value.tag == "div" && r.value.attrs == WrapperAttrs
  {
    if !ServerHasImage(s) && !ServerHasContent(s) then None
    else Some(Frame(ServerFigureImage(s, entries, host), ServerContentTitle(s, entries, host)))
  }

  predicate ClientHasImage(s: Settings) { JsTruthy(s.imageUrl) }

  predicate ClientHasContent(s: Settings) { JsTruthy(s.titleText) }

  /** The render-attribute entries of the view after the template ran. */
  function ClientEntries(s: Settings, entries: Entries, host: ClientHost): Entries
  {
    if ClientHasContent(s) then WithTitleAttributes(entries, ClientTitleClass, host.inlineEditing) else entries
  }

  /** The `<img>` the template writes: only the URL is escaped. */
  function ClientImageHtml(s: Settings, host: ClientHost): string
  {
    var url := host.getImageUrl(ImageRef(s.imageId, s.imageUrl, s.thumbnailSize, s.thumbnailCustomDimension));
    "<img src=\"" + host.escape(url) + "\" class=\"elementor-animation-" + JsText(s.hoverAnimation) + "\" />"
  }

  function ClientFigureImage(s: Settings, host: ClientHost): Option<Node>
  {
    if ClientHasImage(s) then Some(Raw(ClientImageHtml(s, host))) else None
  }

  function ClientTitle(s: Settings, entries: Entries, host: ClientHost): seq<Node>
  {
    if ClientHasContent(s) then
      var attributeText := host.attributeString(Of(ClientEntries(s, entries, host), TitleKey));
      [TitleElement(host.validateHtmlTag(s.titleSize), attributeText, s.titleText.s)]
    else []
  }

  function ClientContentTitle(s: Settings, entries: Entries, host: ClientHost): Option<seq<Node>>
  {
    if ClientHasContent(s) then Some(ClientTitle(s, entries, host)) else None
  }

  /** What the template prints; None when it returns without printing. */
  function ClientMarkup(s: Settings, entries: Entries, host: ClientHost): (r: Option<Node>)
    ensures r.None? <==> !ClientHasImage(s) && !ClientHasContent(s)
    ensures r.Some? ==> r.value.Element? && r.value.tag == "div" && r.value.attrs == WrapperAttrs
  {
    if !ClientHasImage(s) && !ClientHasContent(s) then None
    else Some(Frame(ClientFigureImage(s, host), ClientContentTitle(s, entries, host)))
  }

  /** The text a fragment prints, or nothing. */
  function Printed(m: Option<Node>): Option<string>
  {
    match m
    case None => None
    case Some(n) => Some(Html(n))
  }

  // ---------------------------------------------------------------------------
  // How the pieces the two paths append spell the fragment's elements

  lemma HtmlOfOne(a: Node)
    ensures HtmlSeq([a]) == Html(a)
  {
  }

  /** The closing tags the source writes as literals, joined from their
      pieces; kept on their own so the solver sees only literals. */
  lemma CloseDivJoined()
    ensures "</" + "div" + ">" == "</div>"
  {
  }

  lemma CloseFigureJoined()
    ensures "</" + "figure" + ">" == "</figure>"
  {
  }

  lemma CloseLinkJoined()
    ensures "</" + "a" + ">" == "</a>"
  {
  }

  lemma WrapperSpelled(figure: seq<Node>, content: seq<Node>)
    ensures WrapperOpenHtml + HtmlSeq(figure) + HtmlSeq(content) + "</div>"
         == Html(Element("div", WrapperAttrs, figure + content))
  {
    HtmlSeqAppend(figure, content);
    CloseDivJoined();
  }

  lemma FigureSpelled(inner: Node)
    ensures FigureOpenHtml + Html(inner) + "</figure>"
         == HtmlSeq([Element("figure", FigureAttrs, [inner])])
  {
    HtmlOfOne(inner);
    HtmlOfOne(Element("figure", FigureAttrs, [inner]));
    CloseFigureJoined();
  }

  lemma LinkSpelled(attributeText: string, imageHtml: string)
    ensures "<a " + attributeText + " tabindex=\"-1\">" + imageHtml + "</a>"
         == Html(Element("a", " " + attributeText + LinkTail, [Raw(imageHtml)]))
  {
    HtmlOfOne(Raw(imageHtml));
    CloseLinkJoined();
  }

  lemma TitleSpelled(tag: string, attributeText: string, text: string)
    ensures "<" + tag + " " + attributeText + ">" + text + "</" + tag + ">"
         == HtmlSeq([TitleElement(tag, attributeText, text)])
  {
    HtmlOfOne(Raw(text));
    HtmlOfOne(TitleElement(tag, attributeText, text));
  }

  lemma ContentSpelled(before: string, title: seq<Node>)
    ensures before + ContentOpenHtml + HtmlSeq(title) + "</div>"
         == before + HtmlSeq([Element("div", ContentAttrs, title)])
  {
    HtmlOfOne(Element("div", ContentAttrs, title));
    CloseDivJoined();
  }

  // ---------------------------------------------------------------------------
  // The two render paths, as written

  class TextExampleWidget {
    /** The widget's render-attribute store. */
    const attributes: Store

    constructor ()
      ensures fresh(attributes) && attributes.entries == map[]
    {
      attributes := new Store();
    }

    /** `render()`: prints the widget's markup for `settings`, or nothing. */
    method Render(settings: Settings, host: ServerHost) returns (printed: Option<string>)
      modifies attributes
      ensures printed == Printed(ServerMarkup(settings, old(attributes.entries), host))
      ensures attributes.entries == ServerEntries(settings, old(attributes.entries), host)
    {
      ghost var entries := attributes.entries;
      var hasImage := !PhpEmpty(settings.imageUrl);
      var hasContent := !PhpEmpty(settings.titleText);

      if !hasImage && !hasContent {
        return None;
      }

      var html := WrapperOpenHtml;
      // The blocks written inside the wrapper so far.
      ghost var figure: seq<Node> := [];
      ghost var content: seq<Node> := [];

      if hasImage {
        var imageHtml := host.ksesPost(host.attachmentImageHtml(settings, "thumbnail", "image"));
        ghost var image: Node := Raw(imageHtml);

        if !PhpEmpty(settings.linkUrl) {
          var linkAttributes := attributes.RenderAttributeString(LinkKey, host.attributeString);
          ghost var bare := imageHtml;
          imageHtml := "<a " + linkAttributes + " tabindex=\"-1\">" + imageHtml + "</a>";
          image := Element("a", " " + linkAttributes + LinkTail, [image]);
          assert imageHtml == Html(image) by { LinkSpelled(linkAttributes, bare); }
        }

        figure := [Element("figure", FigureAttrs, [image])];
        html := html + (FigureOpenHtml + imageHtml + "</figure>");
        assert html == WrapperOpenHtml + HtmlSeq(figure) by { FigureSpelled(image); }
      }
      assert figure == FigureBlock(ServerFigureImage(settings, entries, host));

      if hasContent {
        ghost var before := html;
        html := html + ContentOpenHtml;
        ghost var title: seq<Node> := [];

        if !UtilsIsEmpty(settings.titleText) {
          attributes.AddRenderAttribute(TitleKey, "class", ServerTitleClass);
          attributes.AddInlineEditingAttributes(TitleKey, "none", host.inlineEditing);
          var titleHtml := settings.titleText.s;
          var tag := host.validateHtmlTag(settings.titleSize);
          var attributeText := attributes.RenderAttributeString(TitleKey, host.attributeString);
          ghost var titleStart := html;
          html := html + ("<" + tag + " " + attributeText + ">" + titleHtml + "</" + tag + ">");
          title := [TitleElement(tag, attributeText, titleHtml)];
          assert html == titleStart + HtmlSeq(title) by { TitleSpelled(tag, attributeText, titleHtml); }
        }
        assert title == ServerTitle(settings, entries, host);

        html := html + "</div>";
        content := [Element("div", ContentAttrs, title)];
        assert html == before + HtmlSeq(content) by { ContentSpelled(before, title); }
      }
      assert content == ContentBlock(ServerContentTitle(settings, entries, host));
      assert html == WrapperOpenHtml + HtmlSeq(figure) + HtmlSeq(content);

      html := html + "</div>";
      WrapperSpelled(figure, content);
      printed := Some(html);
    }
  }

  /** The live-preview template: prints the widget's markup for `settings`,
      or nothing, adding the title's attributes to the editor `view`. */
  method ContentTemplate(view: Store, settings: Settings, host: ClientHost) returns (printed: Option<string>)
    modifies view
    ensures printed == Printed(ClientMarkup(settings, old(view.entries), host))
    ensures view.entries == ClientEntries(settings, old(view.entries), host)
  {
    ghost var entries := view.entries;
    var hasImage := JsTruthy(settings.imageUrl);
    var hasContent := JsTruthy(settings.titleText);

    if !hasImage && !hasContent {
      return None;
    }

    var html := WrapperOpenHtml;
    // The blocks written inside the wrapper so far.
    ghost var figure: seq<Node> := [];
    ghost var content: seq<Node> := [];

    if hasImage {
      var image := ImageRef(settings.imageId, settings.imageUrl, settings.thumbnailSize, settings.thumbnailCustomDimension);
      var imageUrl := host.getImageUrl(image);
      var imageHtml := "<img src=\"" + host.escape(imageUrl) + "\" class=\"elementor-animation-" + JsText(settings.hoverAnimation) + "\" />";
      figure := [Element("figure", FigureAttrs, [Raw(imageHtml)])];
      html := html + (FigureOpenHtml + imageHtml + "</figure>");
      assert html == WrapperOpenHtml + HtmlSeq(figure) by { FigureSpelled(Raw(imageHtml)); }
    }
    assert figure == FigureBlock(ClientFigureImage(settings, host));

    if hasContent {
      ghost var before := html;
      html := html + ContentOpenHtml;
      ghost var title: seq<Node> := [];

      if JsTruthy(settings.titleText) {
        var titleHtml := settings.titleText.s;
        var titleSizeTag := host.validateHtmlTag(settings.titleSize);
        view.AddRenderAttribute(TitleKey, "class", ClientTitleClass);
        view.AddInlineEditingAttributes(TitleKey, "none", host.inlineEditing);
        var attributeText := view.RenderAttributeString(TitleKey, host.attributeString);
        ghost var titleStart := html;
        html := html + ("<" + titleSizeTag + " " + attributeText + ">" + titleHtml + "</" + titleSizeTag + ">");
        title := [TitleElement(titleSizeTag, attributeText, titleHtml)];
        assert html == titleStart + HtmlSeq(title) by { TitleSpelled(titleSizeTag, attributeText, titleHtml); }
      }
      assert title == ClientTitle(settings, entries, host);

      html := html + "</div>";
      content := [Element("div", ContentAttrs, title)];
      assert html == before + HtmlSeq(content) by { ContentSpelled(before, title); }
    }
    assert content == ContentBlock(ClientContentTitle(settings, entries, host));
    assert html == WrapperOpenHtml + HtmlSeq(figure) + HtmlSeq(content);

    html := html + "</div>";
    WrapperSpelled(figure, content);
    printed := Some(html);
  }
}
