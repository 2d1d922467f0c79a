/** `processTags` from easytags.go: the per-field driver over one struct's
    field list.

    A field is reduced to what the driver reads and writes: its names (none
    for an embedded field) and its tag literal, absent when the field has
    no tag. */
module Fields {
  import opened Optional
  import opened Tags

  datatype Field = Field(names: seq<string>, tag: Option<string>)

  /** The tag text `parseTags` searches: a missing tag is replaced by an
      empty literal before the search. */
  function CurrentTag(f: Field): string
  {
    match f.tag
    case Some(t) => t
    case None => ""
  }

  /** One field: embedded fields are skipped; a named field gets the tag
      built from its first name, whatever tag it had before. */
  function ProcessField(f: Field, tagNames: seq<string>): (g: Field)
    ensures g.names == f.names
    ensures |f.names| == 0 ==> g == f
    ensures |f.names| > 0 ==> g.tag.Some?
    ensures |f.names| > 0 && |tagNames| == 0 ==> g.tag == Some("")
    ensures |f.names| > 0 && |tagNames| > 0 ==> |g.tag.value| >= 2 && g.tag.value[0] == '`' && g.tag.value[|g.tag.value| - 1] == '`'
    ensures |f.names| > 0 ==> g.tag.value == ParseTags(f.names[0], CurrentTag(f), tagNames)
  {
    if |f.names| == 0 then f
    else f.(tag := Some(ParseTags(f.names[0], CurrentTag(f), tagNames)))
  }

  /** The loop over a struct's field list. */
  function ProcessTags(fields: seq<Field>, tagNames: seq<string>): (r: seq<Field>)
    ensures |r| == |fields|
    ensures forall i :: 0 <= i < |fields| ==> r[i] == ProcessField(fields[i], tagNames)
  {
    seq(|fields|, i requires 0 <= i < |fields| => ProcessField(fields[i], tagNames))
  }

  /** A field name the Go parser accepts never holds a quote. */
  predicate QuoteFreeNames(fields: seq<Field>)
  {
    forall i :: 0 <= i < |fields| && |fields[i].names| > 0 ==> |fields[i].names[0]| > 0 && '"' !in fields[i].names[0]
  }

  /** With one tag name, processing a struct's fields twice gives what
      processing them once gave. */
  lemma ProcessTagsIdempotent(fields: seq<Field>, name: string)
    requires QuoteFreeNames(fields)
    ensures ProcessTags(ProcessTags(fields, [name]), [name]) == ProcessTags(fields, [name])
  {
    var once := ProcessTags(fields, [name]);
    forall i | 0 <= i < |fields|
      ensures ProcessField(once[i], [name]) == once[i]
    {
      var f := fields[i];
      if |f.names| > 0 {
        ParseTagsIdempotent(f.names[0], CurrentTag(f), name);
      }
    }
  }
}
