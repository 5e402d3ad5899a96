/** What the widget's markup promises, first for the shared template, then
    for each path in terms of the settings, then for how the two paths
    compare. */
module TextExampleProperties {

  import opened Wrappers
  import opened Markup
  import opened RenderAttributes
  import opened TextExample

  /** The tags the title-size control offers. */
  const TitleTags: set<string> := {"h1", "h2", "h3", "h4", "h5", "h6", "div", "span", "p"}

  /** A tag validator that fails closed: whatever it is given, it answers
      with one of the offered tags. */
  ghost predicate FailsClosed(validate: Field -> string)
  {
    forall f :: validate(f) in TitleTags
  }

  predicate IsFigureBlock(n: Node)
  {
    n.Element? && n.tag == "figure" && n.attrs == FigureAttrs
  }

  predicate IsContentBlock(n: Node)
  {
    n.Element? && n.tag == "div" && n.attrs == ContentAttrs
  }

  // ---------------------------------------------------------------------------
  // The shared template

  /** The wrapper's opening tag starts the markup, its closing tag ends it,
      and everything between is well nested, so the wrapper encloses all. */
  lemma FrameEnclosed(image: Option<Node>, title: Option<seq<Node>>)
    ensures var n := Frame(image, title);
      var h := Html(n);
      WrapperOpenHtml <= h && |h| >= 6 && h[|h| - 6..] == "</div>"
      && h == Spell(Tokens(n))
      && Tokens(n) == [Open("div", WrapperAttrs)] + TokensSeq(n.children) + [Close("div")]
      && WellNested(TokensSeq(n.children))
      && WellNested(Tokens(n))
  {
    var n := Frame(image, title);
    ElementWellNested(n);
    HtmlIsSpelled(n);
    var h := Html(n);
    assert h == WrapperOpenHtml + HtmlSeq(n.children) + "</div>";
    assert h[|h| - 6..] == "</div>";
  }

  /** The wrapper holds the figure block first exactly when there is an
      image, the content block last exactly when there is a title, and
      nothing else. */
  lemma FrameBlocks(image: Option<Node>, title: Option<seq<Node>>)
    ensures var cs := Frame(image, title).children;
      && |cs| == (if image.Some? then 1 else 0) + (if title.Some? then 1 else 0)
      && (image.Some? <==> |cs| > 0 && IsFigureBlock(cs[0]))
      && (title.Some? <==> |cs| > 0 && IsContentBlock(cs[|cs| - 1]))
      && (image.Some? ==> cs[0].children == [image.value])
      && (title.Some? ==> cs[|cs| - 1].children == title.value)
  {
  }

  /** How many elements of each name the template writes. */
  lemma {:induction false} FrameCensus(image: Option<Node>, title: Option<seq<Node>>, t: string)
    ensures CountTag(Frame(image, title), t)
         == (if t == "div" then 1 else 0)
          + (if image.Some? then (if t == "figure" then 1 else 0) + CountTag(image.value, t) else 0)
          + (if title.Some? then (if t == "div" then 1 else 0) + CountTagSeq(title.value, t) else 0)
  {
    CountTagSeqAppend(FigureBlock(image), ContentBlock(title), t);
    if image.Some? {
      assert CountTagSeq([image.value], t) == CountTag(image.value, t);
      assert CountTagSeq(FigureBlock(image), t) == (if t == "figure" then 1 else 0) + CountTag(image.value, t);
    }
    if title.Some? {
      assert CountTagSeq(ContentBlock(title), t) == (if t == "div" then 1 else 0) + CountTagSeq(title.value, t);
    }
  }

  /** The markup of a title element appears in the markup as it is. */
  lemma FrameContainsTitle(image: Option<Node>, titleElement: Node)
    ensures Contains(Html(Frame(image, Some([titleElement]))), Html(titleElement))
  {
    var figure := FigureBlock(image);
    var pre := WrapperOpenHtml + HtmlSeq(figure) + ContentOpenHtml;
    var post := "</div>" + "</div>";
    calc {
      Html(Frame(image, Some([titleElement])));
      { WrapperSpelled(figure, [Element("div", ContentAttrs, [titleElement])]); }
      WrapperOpenHtml + HtmlSeq(figure) + HtmlSeq([Element("div", ContentAttrs, [titleElement])]) + "</div>";
      { ContentSpelled(WrapperOpenHtml + HtmlSeq(figure), [titleElement]); }
      WrapperOpenHtml + HtmlSeq(figure) + ContentOpenHtml + HtmlSeq([titleElement]) + "</div>" + "</div>";
      { HtmlOfOne(titleElement); }
      pre + Html(titleElement) + post;
    }
    ContainsMiddle(pre, Html(titleElement), post);
  }

  // ---------------------------------------------------------------------------
  // render()

  /** Printed markup starts with the wrapper's opening tag, ends with its
      closing tag, and is well nested inside. */
  lemma ServerWrapperEncloses(s: Settings, entries: Entries, host: ServerHost)
    requires ServerHasImage(s) || ServerHasContent(s)
    ensures var n := ServerMarkup(s, entries, host).value;
      var h := Html(n);
      WrapperOpenHtml <= h && |h| >= 6 && h[|h| - 6..] == "</div>"
      && h == Spell(Tokens(n)) && WellNested(Tokens(n))
      && Tokens(n) == [Open("div", WrapperAttrs)] + TokensSeq(n.children) + [Close("div")]
      && WellNested(TokensSeq(n.children))
  {
    FrameEnclosed(ServerFigureImage(s, entries, host), ServerContentTitle(s, entries, host));
  }

  /** The figure block comes first exactly when there is an image, the
      content block last exactly when there is a title; the figure holds the
      sanitised image markup, in a link exactly when a link URL is set. */
  lemma ServerBlocks(s: Settings, entries: Entries, host: ServerHost)
    requires ServerHasImage(s) || ServerHasContent(s)
    ensures var cs := ServerMarkup(s, entries, host).value.children;
      var imageHtml := host.ksesPost(host.attachmentImageHtml(s, "thumbnail", "image"));
      && |cs| == (if ServerHasImage(s) then 1 else 0) + (if ServerHasContent(s) then 1 else 0)
      && (ServerHasImage(s) <==> |cs| > 0 && IsFigureBlock(cs[0]))
      && (ServerHasContent(s) <==> |cs| > 0 && IsContentBlock(cs[|cs| - 1]))
      && (ServerHasContent(s) ==>
            cs[|cs| - 1].children
            == [TitleElement(host.validateHtmlTag(s.titleSize),
                             host.attributeString(Of(ServerEntries(s, entries, host), TitleKey)), s.titleText.s)])
      && (ServerHasImage(s) && PhpEmpty(s.linkUrl) ==> cs[0].children == [Raw(imageHtml)])
      && (ServerHasImage(s) && !PhpEmpty(s.linkUrl) ==>
            cs[0].children == [Element("a", " " + host.attributeString(Of(entries, LinkKey)) + LinkTail, [Raw(imageHtml)])])
  {
    FrameBlocks(ServerFigureImage(s, entries, host), ServerContentTitle(s, entries, host));
  }

  /** Every element render() writes: the wrapper, the figure with an image,
      the link with an image and a link URL, the content block and the
      title (under the validated tag) with a title. */
  lemma ServerCensus(s: Settings, entries: Entries, host: ServerHost, t: string)
    requires ServerHasImage(s) || ServerHasContent(s)
    ensures CountTag(ServerMarkup(s, entries, host).value, t)
         == (if t == "div" then 1 else 0)
          + (if ServerHasImage(s) && t == "figure" then 1 else 0)
          + (if ServerHasImage(s) && !PhpEmpty(s.linkUrl) && t == "a" then 1 else 0)
          + (if ServerHasContent(s) && t == "div" then 1 else 0)
          + (if ServerHasContent(s) && t == host.validateHtmlTag(s.titleSize) then 1 else 0)
  {
    var image := ServerFigureImage(s, entries, host);
    var title := ServerContentTitle(s, entries, host);
    FrameCensus(image, title, t);
    var imageHtml := host.ksesPost(host.attachmentImageHtml(s, "thumbnail", "image"));
    assert CountTagSeq([Raw(imageHtml)], t) == 0;
    if ServerHasContent(s) {
      var titleElement := ServerTitle(s, entries, host)[0];
      assert CountTagSeq([Raw(s.titleText.s)], t) == 0;
      assert CountTagSeq([titleElement], t) == CountTag(titleElement, t);
    }
  }

  /** With a title other than `figure` and `a`, the figure is written once
      with an image and never without, and the link once exactly when there
      is an image and a link URL. */
  lemma ServerFigureAndLink(s: Settings, entries: Entries, host: ServerHost)
    requires ServerHasImage(s) || ServerHasContent(s)
    requires host.validateHtmlTag(s.titleSize) != "figure" && host.validateHtmlTag(s.titleSize) != "a"
    ensures CountTag(ServerMarkup(s, entries, host).value, "figure") == if ServerHasImage(s) then 1 else 0
    ensures CountTag(ServerMarkup(s, entries, host).value, "a")
         == if ServerHasImage(s) && !PhpEmpty(s.linkUrl) then 1 else 0
  {
    ServerCensus(s, entries, host, "figure");
    ServerCensus(s, entries, host, "a");
  }

  /** With a validator that fails closed, no element outside the widget's
      own (div, figure, a) and the offered title tags is ever written,
      whatever `title_size` holds, e.g. no `script`. */
  lemma ServerWritesNoOtherTag(s: Settings, entries: Entries, host: ServerHost, t: string)
    requires ServerHasImage(s) || ServerHasContent(s)
    requires FailsClosed(host.validateHtmlTag)
    requires t !in TitleTags && t != "figure" && t != "a"
    ensures CountTag(ServerMarkup(s, entries, host).value, t) == 0
  {
    ServerCensus(s, entries, host, t);
    assert host.validateHtmlTag(s.titleSize) in TitleTags;
  }

  /** With a title, the inner guard always passes, the title's class and
      inline-editing attributes are added after those already recorded, and
      the markup holds the title element under the validated tag with the
      title text inserted verbatim. */
  lemma ServerTitleVerbatim(s: Settings, entries: Entries, host: ServerHost)
    requires ServerHasContent(s)
    ensures ServerHasTitle(s)
    ensures Of(ServerEntries(s, entries, host), TitleKey)
         == Of(entries, TitleKey) + [Attr("class", ServerTitleClass)] + host.inlineEditing(TitleKey, InlineToolbar)
    ensures var tag := host.validateHtmlTag(s.titleSize);
      var attributeText := host.attributeString(Of(ServerEntries(s, entries, host), TitleKey));
      Contains(Html(ServerMarkup(s, entries, host).value),
               "<" + tag + " " + attributeText + ">" + s.titleText.s + "</" + tag + ">")
  {
    var tag := host.validateHtmlTag(s.titleSize);
    var attributeText := host.attributeString(Of(ServerEntries(s, entries, host), TitleKey));
    FrameContainsTitle(ServerFigureImage(s, entries, host), TitleElement(tag, attributeText, s.titleText.s));
    TitleSpelled(tag, attributeText, s.titleText.s);
    HtmlOfOne(TitleElement(tag, attributeText, s.titleText.s));
  }

  /** Each render() adds the title's attributes again: the store keeps what
      earlier renders added. */
  lemma ServerRenderAccumulates(s: Settings, entries: Entries, host: ServerHost)
    requires ServerHasContent(s)
    ensures var added := [Attr("class", ServerTitleClass)] + host.inlineEditing(TitleKey, InlineToolbar);
      Of(ServerEntries(s, ServerEntries(s, entries, host), host), TitleKey) == Of(entries, TitleKey) + added + added
  {
    var added := [Attr("class", ServerTitleClass)] + host.inlineEditing(TitleKey, InlineToolbar);
    ServerTitleVerbatim(s, entries, host);
    ServerTitleVerbatim(s, ServerEntries(s, entries, host), host);
    assert Of(entries, TitleKey) + [Attr("class", ServerTitleClass)] + host.inlineEditing(TitleKey, InlineToolbar)
        == Of(entries, TitleKey) + added;
  }

  // ---------------------------------------------------------------------------
  // The live-preview template

  lemma ClientWrapperEncloses(s: Settings, entries: Entries, host: ClientHost)
    requires ClientHasImage(s) || ClientHasContent(s)
    ensures var n := ClientMarkup(s, entries, host).value;
      var h := Html(n);
      WrapperOpenHtml <= h && |h| >= 6 && h[|h| - 6..] == "</div>"
      && h == Spell(Tokens(n)) && WellNested(Tokens(n))
      && Tokens(n) == [Open("div", WrapperAttrs)] + TokensSeq(n.children) + [Close("div")]
      && WellNested(TokensSeq(n.children))
  {
    FrameEnclosed(ClientFigureImage(s, host), ClientContentTitle(s, entries, host));
  }

  /** As for render(), except that the figure always holds the bare `<img>`. */
  lemma ClientBlocks(s: Settings, entries: Entries, host: ClientHost)
    requires ClientHasImage(s) || ClientHasContent(s)
    ensures var cs := ClientMarkup(s, entries, host).value.children;
      && |cs| == (if ClientHasImage(s) then 1 else 0) + (if ClientHasContent(s) then 1 else 0)
      && (ClientHasImage(s) <==> |cs| > 0 && IsFigureBlock(cs[0]))
      && (ClientHasContent(s) <==> |cs| > 0 && IsContentBlock(cs[|cs| - 1]))
      && (ClientHasContent(s) ==>
            cs[|cs| - 1].children
            == [TitleElement(host.validateHtmlTag(s.titleSize),
                             host.attributeString(Of(ClientEntries(s, entries, host), TitleKey)), s.titleText.s)])
      && (ClientHasImage(s) ==> cs[0].children == [Raw(ClientImageHtml(s, host))])
  {
    FrameBlocks(ClientFigureImage(s, host), ClientContentTitle(s, entries, host));
  }

  /** Every element the template writes; there is never a link. */
  lemma ClientCensus(s: Settings, entries: Entries, host: ClientHost, t: string)
    requires ClientHasImage(s) || ClientHasContent(s)
    ensures CountTag(ClientMarkup(s, entries, host).value, t)
         == (if t == "div" then 1 else 0)
          + (if ClientHasImage(s) && t == "figure" then 1 else 0)
          + (if ClientHasContent(s) && t == "div" then 1 else 0)
          + (if ClientHasContent(s) && t == host.validateHtmlTag(s.titleSize) then 1 else 0)
  {
    var image := ClientFigureImage(s, host);
    var title := ClientContentTitle(s, entries, host);
    FrameCensus(image, title, t);
    if ClientHasContent(s) {
      var titleElement := ClientTitle(s, entries, host)[0];
      assert CountTagSeq([Raw(s.titleText.s)], t) == 0;
      assert CountTagSeq([titleElement], t) == CountTag(titleElement, t);
    }
  }

  lemma ClientWritesNoOtherTag(s: Settings, entries: Entries, host: ClientHost, t: string)
    requires ClientHasImage(s) || ClientHasContent(s)
    requires FailsClosed(host.validateHtmlTag)
    requires t !in TitleTags && t != "figure"
    ensures CountTag(ClientMarkup(s, entries, host).value, t) == 0
  {
    ClientCensus(s, entries, host, t);
    assert host.validateHtmlTag(s.titleSize) in TitleTags;
  }

  /** The title element under the validated tag, text verbatim, after the
      view's title attributes gained the (image-box) class and the
      inline-editing attributes. */
  lemma ClientTitleVerbatim(s: Settings, entries: Entries, host: ClientHost)
    requires ClientHasContent(s)
    ensures Of(ClientEntries(s, entries, host), TitleKey)
         == Of(entries, TitleKey) + [Attr("class", ClientTitleClass)] + host.inlineEditing(TitleKey, InlineToolbar)
    ensures var tag := host.validateHtmlTag(s.titleSize);
      var attributeText := host.attributeString(Of(ClientEntries(s, entries, host), TitleKey));
      Contains(Html(ClientMarkup(s, entries, host).value),
               "<" + tag + " " + attributeText + ">" + s.titleText.s + "</" + tag + ">")
  {
    var tag := host.validateHtmlTag(s.titleSize);
    var attributeText := host.attributeString(Of(ClientEntries(s, entries, host), TitleKey));
    FrameContainsTitle(ClientFigureImage(s, host), TitleElement(tag, attributeText, s.titleText.s));
    TitleSpelled(tag, attributeText, s.titleText.s);
    HtmlOfOne(TitleElement(tag, attributeText, s.titleText.s));
  }

  /** With an image, the markup holds the `<img>` whose source is the
      escaped resolved URL. */
  lemma ClientImageEscaped(s: Settings, entries: Entries, host: ClientHost)
    requires ClientHasImage(s)
    ensures var url := host.getImageUrl(ImageRef(s.imageId, s.imageUrl, s.thumbnailSize, s.thumbnailCustomDimension));
      Contains(Html(ClientMarkup(s, entries, host).value), "<img src=\"" + host.escape(url) + "\"")
  {
    var url := host.getImageUrl(ImageRef(s.imageId, s.imageUrl, s.thumbnailSize, s.thumbnailCustomDimension));
    var img := ClientImageHtml(s, host);
    var part := "<img src=\"" + host.escape(url) + "\"";
    var content := ContentBlock(ClientContentTitle(s, entries, host));
    var figure := FigureOpenHtml + img + "</figure>";
    assert Contains(img, part) by {
      ImageSourceJoined();
      PrefixJoin("<img src=\"" + host.escape(url), "\"", " class=\"elementor-animation-");
      ContainsPrefix(img, part);
    }
    assert Contains(figure, img) by {
      ContainsPrefix(img, img);
      ContainsJoin(FigureOpenHtml, img, img);
      ContainsJoin(FigureOpenHtml + img, "</figure>", img);
    }
    assert Html(ClientMarkup(s, entries, host).value) == WrapperOpenHtml + figure + HtmlSeq(content) + "</div>" by {
      WrapperSpelled([Element("figure", FigureAttrs, [Raw(img)])], content);
      FigureSpelled(Raw(img));
    }
    ContainsJoin(WrapperOpenHtml, figure, img);
    ContainsJoin(WrapperOpenHtml + figure, HtmlSeq(content), img);
    ContainsJoin(WrapperOpenHtml + figure + HtmlSeq(content), "</div>", img);
    ContainsTrans(Html(ClientMarkup(s, entries, host).value), img, part);
  }

  /** The quote that closes the `src` attribute is where the literal after
      the URL begins. */
  lemma ImageSourceJoined()
    ensures "\"" + " class=\"elementor-animation-" == "\" class=\"elementor-animation-"
  {
  }

  lemma PrefixJoin(x: string, y: string, z: string)
    ensures x + y <= x + (y + z)
  {
    assert x + (y + z) == (x + y) + z;
  }

  // ---------------------------------------------------------------------------
  // The two paths side by side

  lemma {:induction false} FrameShapes(image1: Option<Node>, title1: Option<seq<Node>>,
                                       image2: Option<Node>, title2: Option<seq<Node>>)
    requires image1.Some? == image2.Some? && (image1.Some? ==> Shape(image1.value) == Shape(image2.value))
    requires title1.Some? == title2.Some? && (title1.Some? ==> ShapeSeq(title1.value) == ShapeSeq(title2.value))
    ensures Shape(Frame(image1, title1)) == Shape(Frame(image2, title2))
  {
    ShapeSeqAppend(FigureBlock(image1), ContentBlock(title1));
    ShapeSeqAppend(FigureBlock(image2), ContentBlock(title2));
    if image1.Some? {
      assert ShapeSeq([image1.value]) == [Shape(image1.value)];
      assert ShapeSeq([image2.value]) == [Shape(image2.value)];
      assert ShapeSeq(FigureBlock(image1)) == ShapeSeq(FigureBlock(image2));
    }
    if title1.Some? {
      assert ShapeSeq(ContentBlock(title1)) == ShapeSeq(ContentBlock(title2));
    }
  }

  lemma {:induction false} ShapeSeqAppend(a: seq<Node>, b: seq<Node>)
    ensures ShapeSeq(a + b) == ShapeSeq(a) + ShapeSeq(b)
  {
    if a == [] {
      assert a + b == b;
    } else {
      assert (a + b)[1..] == a[1..] + b;
      ShapeSeqAppend(a[1..], b);
    }
  }

  /** Where the presence tests agree (neither the image URL nor the title is
      "0"), no link URL is set and both validators give the same tag, the two
      paths write the same elements with the same nesting. */
  lemma PathsAgree(s: Settings, entries: Entries, server: ServerHost, client: ClientHost)
    requires s.imageUrl != Text("0") && s.titleText != Text("0")
    requires PhpEmpty(s.linkUrl)
    requires server.validateHtmlTag(s.titleSize) == client.validateHtmlTag(s.titleSize)
    ensures ServerMarkup(s, entries, server).Some? == ClientMarkup(s, entries, client).Some?
    ensures ServerMarkup(s, entries, server).Some? ==>
      Shape(ServerMarkup(s, entries, server).value) == Shape(ClientMarkup(s, entries, client).value)
  {
    if ServerMarkup(s, entries, server).Some? {
      var t1 := ServerContentTitle(s, entries, server);
      var t2 := ClientContentTitle(s, entries, client);
      if t1.Some? {
        assert ShapeSeq(t1.value) == [Shape(t1.value[0])];
        assert ShapeSeq(t2.value) == [Shape(t2.value[0])];
      }
      FrameShapes(ServerFigureImage(s, entries, server), t1, ClientFigureImage(s, client), t2);
    }
  }

  /** A title of "0" alone: render() prints nothing, the template prints the
      wrapper holding only the content block with the title element "0". */
  lemma ZeroTitleSplitsPaths(s: Settings, entries: Entries, server: ServerHost, client: ClientHost)
    requires !JsTruthy(s.imageUrl) && s.titleText == Text("0")
    ensures ServerMarkup(s, entries, server).None?
    ensures ClientMarkup(s, entries, client).Some?
    ensures var tag := client.validateHtmlTag(s.titleSize);
      var attributeText := client.attributeString(Of(ClientEntries(s, entries, client), TitleKey));
      ClientMarkup(s, entries, client).value.children == [Element("div", ContentAttrs, [TitleElement(tag, attributeText, "0")])]
  {
  }

  /** With an image and a link URL, render() wraps the image in a link and
      the template does not, so the two paths' elements differ. */
  lemma LinkSplitsPaths(s: Settings, entries: Entries, server: ServerHost, client: ClientHost)
    requires ServerHasImage(s) && ClientHasImage(s) && !PhpEmpty(s.linkUrl)
    ensures Shape(ServerMarkup(s, entries, server).value) != Shape(ClientMarkup(s, entries, client).value)
  {
    var serverFigure := Element("figure", FigureAttrs, [ServerImage(s, entries, server)]);
    var clientFigure := Element("figure", FigureAttrs, [Raw(ClientImageHtml(s, client))]);
    var serverChildren := [serverFigure] + ContentBlock(ServerContentTitle(s, entries, server));
    var clientChildren := [clientFigure] + ContentBlock(ClientContentTitle(s, entries, client));
    assert ShapeSeq([ServerImage(s, entries, server)])[0].Element?;
    assert ShapeSeq([Raw(ClientImageHtml(s, client))])[0].Raw?;
    assert Shape(serverFigure) != Shape(clientFigure);
    assert ShapeSeq(serverChildren)[0] == Shape(serverFigure);
    assert ShapeSeq(clientChildren)[0] == Shape(clientFigure);
  }

  /** Given the same recorded entries and the same inline-editing attributes,
      the two paths record the same title attributes except for the class:
      `elementor-text-example-title` against `elementor-image-box-title`. */
  lemma TitleClassesDiffer(s: Settings, entries: Entries, server: ServerHost, client: ClientHost)
    requires ServerHasContent(s) && ClientHasContent(s)
    requires server.inlineEditing(TitleKey, InlineToolbar) == client.inlineEditing(TitleKey, InlineToolbar)
    ensures var k := |Of(entries, TitleKey)|;
      var serverAttrs := Of(ServerEntries(s, entries, server), TitleKey);
      var clientAttrs := Of(ClientEntries(s, entries, client), TitleKey);
      |serverAttrs| == |clientAttrs| && k < |serverAttrs|
      && serverAttrs[k] == Attr("class", ServerTitleClass)
      && clientAttrs[k] == Attr("class", ClientTitleClass)
      && serverAttrs[k] != clientAttrs[k]
      && (forall i :: 0 <= i < |serverAttrs| && i != k ==> serverAttrs[i] == clientAttrs[i])
  {
    ServerTitleVerbatim(s, entries, server);
    ClientTitleVerbatim(s, entries, client);
  }
}
