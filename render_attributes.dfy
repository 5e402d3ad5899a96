/** The render-attribute store that both the widget object (server) and the
    editor view (client) keep: for each element key, the attributes added so
    far, in the order they were added. Turning a list into attribute text is
    the host's serialisation and stays a parameter. */
module RenderAttributes {

  datatype Attr = Attr(name: string, value: string)

  type Entries = map<string, seq<Attr>>

  /** The attributes recorded under `element`; a key never used has none. */
  function Of(entries: Entries, element: string): seq<Attr>
  {
    if element in entries then entries[element] else []
  }

  /** The entries once `attrs` are added under `element`: they go after the
      ones already there, and no other key changes. */
  function Added(entries: Entries, element: string, attrs: seq<Attr>): (r: Entries)
    ensures Of(r, element) == Of(entries, element) + attrs
    ensures forall e :: e != element ==> Of(r, e) == Of(entries, e)
    ensures r.Keys == entries.Keys + {element}
  {
    entries[element := Of(entries, element) + attrs]
  }

  class Store {
    var entries: Entries

    constructor ()
      ensures entries == map[]
    {
      entries := map[];
    }

    /** `add_render_attribute( element, name, value )`. */
    method AddRenderAttribute(element: string, name: string, value: string)
      modifies this
      ensures entries == Added(old(entries), element, [Attr(name, value)])
    {
      entries := Added(entries, element, [Attr(name, value)]);
    }

    /** `add_inline_editing_attributes( element, toolbar )`: what it adds is
        the host's choice (the editor's data attributes, or nothing outside
        the editor), given as `annotate`. */
    method AddInlineEditingAttributes(element: string, toolbar: string, annotate: (string, string) -> seq<Attr>)
      modifies this
      ensures entries == Added(old(entries), element, annotate(element, toolbar))
    {
      entries := Added(entries, element, annotate(element, toolbar));
    }

    /** `get_render_attribute_string( element )`, with the host's serialisation. */
    function RenderAttributeString(element: string, serialize: seq<Attr> -> string): string
      reads this
    {
      serialize(Of(entries, element))
    }
  }
}
