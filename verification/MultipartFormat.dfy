/** The text of a multipart form (section 4 of RFC 7578), written out. */
module MultipartFormat {
  import opened Json
  import opened Multipart
  import opened MultipartHeaders
  import Query

  /** Each part is a boundary line, its fields, an empty line, its content and a line break; the form ends
      with the closing boundary. */
  lemma {:induction false} FormText(item: Part, more: seq<Part>, b: string)
    ensures Serialized([], b) == "--" + b + "--\r\n"
    ensures Serialized([item] + more, b) ==
      "--" + b + "\r\n"
      + FieldsText(item.file.name, item.file.filename, item.file.contentType) + "\r\n"
      + item.content + "\r\n"
      + Serialized(more, b)
  {
    hide HeaderLines, LinesText;
    assert ([item] + more)[1..] == more;
    FieldsAre(item.file);
    NothingMore(b);
    hide Serialized;
    SerializedFirst(item, more, b);
  }

  lemma {:induction false} NothingMore(b: string)
    ensures Serialized([], b) == "--" + b + "--\r\n"
  {
  }

  lemma {:induction false} SerializedFirst(item: Part, more: seq<Part>, b: string)
    ensures Serialized([item] + more, b) == ItemBegin(item.file, b) + item.content + "\r\n" + Serialized(more, b)
  {
    hide ItemBegin;
    assert ([item] + more)[1..] == more;
  }

  function FieldsText(name: string, filename: string, contentType: string): string {
    "Content-Disposition: form-data; name=\"" + name + "\""
    + (if filename == "" then "" else "; filename=\"" + filename + "\"") + "\r\n"
    + (if contentType == "" then "" else "Content-Type: " + contentType + "\r\n")
  }

  lemma {:induction false} FieldsAre(f: File)
    ensures LinesText(HeaderLines(f)) == FieldsText(f.name, f.filename, f.contentType)
  {
    hide LinesText, HeaderLines;
    HeaderText(f);
  }

  /** What the parser reads from the lines a form is made of, and from an extended file name. */
  lemma {:induction false} FieldLinesRead(name: string, filename: string, contentType: string)
    requires IsPlainName(name) && IsPlainName(filename) && filename != "" && contentType != ""
    requires IsTrimmed(contentType) && Query.IsBytes(filename)
    ensures HeaderEffect("Content-Disposition: form-data; name=\"" + name + "\"", NO_FILE) == Some(File(name, "", ""))
    ensures HeaderEffect("Content-Disposition: form-data; name=\"" + name + "\"; filename=\"" + filename + "\"",
                         NO_FILE)
      == Some(File(name, filename, ""))
    ensures HeaderEffect("Content-Disposition: form-data; name=\"" + name + "\"; filename*=UTF-8''"
                         + Query.Encoded(filename), NO_FILE)
      == Some(File(name, filename, ""))
    ensures HeaderEffect("Content-Type: " + contentType, NO_FILE) == Some(File("", "", contentType))
  {
    hide HeaderEffect, IsPlainName, IsTrimmed, Query.Encoded;
    PlainLineReads(name);
    NamedLineReads(name, filename);
    ExtendedReadsBack(name, filename);
    ExtendedText(name, filename);
    TypeReadsBack(File("", "", contentType), NO_FILE);
  }

  lemma {:induction false} PlainLineReads(name: string)
    requires IsPlainName(name)
    ensures HeaderEffect("Content-Disposition: form-data; name=\"" + name + "\"", NO_FILE) == Some(File(name, "", ""))
  {
    hide HeaderEffect, IsPlainName;
    DispositionReadsBack(File(name, "", ""));
    EmptyNameIsPlain();
    var line := "Content-Disposition: form-data; name=\"" + name + "\"";
    assert line + "" == line;
  }

  lemma {:induction false} NamedLineReads(name: string, filename: string)
    requires IsPlainName(name) && IsPlainName(filename) && filename != ""
    ensures HeaderEffect("Content-Disposition: form-data; name=\"" + name + "\"; filename=\"" + filename + "\"",
                         NO_FILE)
      == Some(File(name, filename, ""))
  {
    hide HeaderEffect, IsPlainName;
    DispositionReadsBack(File(name, filename, ""));
    var line := "Content-Disposition: form-data; name=\"" + name + "\"";
    assert line + ("; filename=\"" + filename + "\"")
      == "Content-Disposition: form-data; name=\"" + name + "\"; filename=\"" + filename + "\"";
  }

  lemma {:induction false} ExtendedText(name: string, filename: string)
    requires Query.IsBytes(filename)
    ensures ExtendedLine(name, filename) ==
      "Content-Disposition: form-data; name=\"" + name + "\"; filename*=UTF-8''" + Query.Encoded(filename)
  {
    hide Query.Encoded;
  }
}
