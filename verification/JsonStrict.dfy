/** What the strict reader refuses. */
module JsonStrict {
  import opened Bytes
  import opened JsonText
  import opened Jcs
  import opened NumberReader
  import opened JsonReader

  /** The text of a member up to its value. */
  function NameText(name: string): string {
    FormatString(name) + ":"
  }

  lemma RepeatedName(name: string, tail: string, seen: map<string, Json>)
    requires name in seen
    ensures ReadMembers(NameText(name) + tail, seen).None?
  {
    hide ReadValue, ReadString, FormatString, SkipSpace;
    var t := NameText(name) + tail;
    Assoc(FormatString(name), ":", tail);
    FormatStringStart(name, ":" + tail);
    ReadFormatted(name, ":" + tail);
    NoSpace(":" + tail);
  }

  /** An object that names a member twice is refused, whatever the two values and the rest of the text. */
  lemma DuplicateRefused(name: string, first: Json, tail: string)
    ensures Loads("{" + (NameText(name) + Canon(first) + ("," + (NameText(name) + tail)))).None?
  {
    hide ReadMembers, ReadValue, Canon, FormatString, SkipSpace;
    var second := NameText(name) + tail;
    var rest := "," + second;
    var body := NameText(name) + Canon(first) + rest;
    CanonStart(first);
    ReadCanon(first, rest);
    ReadOneMember(name, Canon(first), first, rest, map[]);
    assert rest[1..] == second;
    SecondStart(name, tail);
    NoSpace(second);
    RepeatedName(name, tail, map[name := first]);
    BodyStart(name, Canon(first) + rest);
    Assoc(NameText(name), Canon(first), rest);
    ReadObject(body);
    NoSpace("{" + body);
  }

  lemma SecondStart(name: string, tail: string)
    ensures NameText(name) + tail != "" && !IsSpace((NameText(name) + tail)[0])
  {
    assert (NameText(name) + tail)[0] == '"';
  }

  lemma BodyStart(name: string, tail: string)
    ensures NameText(name) + tail != "" && (NameText(name) + tail)[0] == '"'
  {
  }

  /** Anything but white space after the value is refused. */
  lemma TrailingRefused(j: Json, tail: string)
    requires tail != "" && Terminated(tail) && !IsSpace(tail[0])
    ensures Loads(Canon(j) + tail).None?
  {
    hide ReadValue, Canon;
    CanonStart(j);
    NoSpace(Canon(j) + tail);
    ReadCanon(j, tail);
    NoSpace(tail);
  }
}
