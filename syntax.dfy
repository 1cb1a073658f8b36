/** The document tree the parser builds and the renderer consumes. Each
    constructor stands for one value of the `type` discriminator; an optional
    string attribute that is absent, `null` or empty is the empty string here,
    since the renderer only tests it for truthiness. */
module Syntax {

  datatype Option<T> = None | Some(value: T)

  datatype Node =
    | Document(children: seq<Node>)         // 'document'
    | Div(children: seq<Node>)              // 'div'
    | Paragraph(children: seq<Node>)        // 'paragraph'
    | Heading(level: nat, children: seq<Node>)  // 'heading'
    | Quote(children: seq<Node>)            // 'quote'
    | List(children: seq<Node>)             // 'list'
    | ListItem(children: seq<Node>)         // 'list-item'
    | OrderedList(children: seq<Node>)      // 'ordered-list'
    | OrderedListItem(children: seq<Node>)  // 'ordered-list-item'
    | Link(url: string, title: string, children: seq<Node>)  // 'link'
    | Image(src: string, alt: string, title: string)         // 'image'
    | Emphasis(children: seq<Node>)         // 'emphasis'
    | Strong(children: seq<Node>)           // 'strong'
    | Strikethrough(children: seq<Node>)    // 'strikethrough'
    | CodeBlock(language: string, value: string)  // 'code-block'
    | Code(value: string)                   // 'code'
    | Text(value: string)                   // 'text'
    | LineBreak                             // 'line-break'
    | HorizontalRule                        // 'horizontal-rule'
    | Unknown(typeName: string, children: seq<Node>)  // a type outside the renderer's table
}
