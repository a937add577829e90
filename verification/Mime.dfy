/** Walks over the MIME tree of a Gmail message, against its parts listed in pre-order. */
module Mime {
  import opened Prelude
  import opened Text

  datatype Header = Header(name: string, value: string)

  datatype Body = Body(data: Option<string>, attachmentId: Option<string>, size: Option<nat>)

  /** A missing list of children and an empty one are walked alike, so both are `[]`. */
  datatype Part = Part(
    mimeType: string,
    filename: Option<string>,
    headers: Option<seq<Header>>,
    body: Option<Body>,
    parts: seq<Part>)

  datatype Attachment = Attachment(id: string, filename: string, mimeType: string, size: nat)

  datatype InlineImage = InlineImage(contentId: string, mimeType: string, attachmentId: string)

  // ---------------------------------------------------------------- the tree in pre-order

  function Flatten(p: Part): seq<Part>
    decreases p
  {
    [p] + FlattenAll(p.parts)
  }

  function FlattenAll(ps: seq<Part>): seq<Part>
    decreases ps
  {
    if ps == [] then [] else Flatten(ps[0]) + FlattenAll(ps[1..])
  }

  // ---------------------------------------------------------------- the body of a type

  predicate Wanted(p: Part, mimeType: string) {
    p.mimeType == mimeType && p.body.Some? && (p.body.value.data.Some? || p.body.value.attachmentId.Some?)
  }

  /** `find_part`. */
  function FindPart(p: Part, mimeType: string): Option<Part>
    decreases p
  {
    if Wanted(p, mimeType) then Some(p) else FindAmong(p.parts, mimeType)
  }

  function FindAmong(ps: seq<Part>, mimeType: string): Option<Part>
    decreases ps
  {
    if ps == [] then None
    else
      var found := FindPart(ps[0], mimeType);
      if found.Some? then found else FindAmong(ps[1..], mimeType)
  }

  /** `r` is the first wanted part of a list, or none is wanted. */
  ghost predicate IsFirstWanted(q: seq<Part>, mimeType: string, r: Option<Part>) {
    match r
    case None => forall p | p in q :: !Wanted(p, mimeType)
    case Some(x) =>
      Wanted(x, mimeType) && exists i | 0 <= i < |q| :: q[i] == x && forall j | 0 <= j < i :: !Wanted(q[j], mimeType)
  }

  lemma FirstOfConcat(q: seq<Part>, rest: seq<Part>, mimeType: string, r: Option<Part>, s: Option<Part>)
    requires IsFirstWanted(q, mimeType, r) && IsFirstWanted(rest, mimeType, s)
    ensures IsFirstWanted(q + rest, mimeType, if r.Some? then r else s)
  {
    if r.Some? {
      var i :| 0 <= i < |q| && q[i] == r.value && forall j | 0 <= j < i :: !Wanted(q[j], mimeType);
      assert (q + rest)[i] == r.value;
    } else if s.Some? {
      var i :| 0 <= i < |rest| && rest[i] == s.value && forall j | 0 <= j < i :: !Wanted(rest[j], mimeType);
      assert (q + rest)[|q| + i] == s.value;
      forall j | 0 <= j < |q| + i ensures !Wanted((q + rest)[j], mimeType) {
        assert j < |q| ==> (q + rest)[j] in q;
      }
    }
  }

  /** `find_part` returns the first part in pre-order that has the type and some content. */
  lemma {:induction false} FindPartIsFirst(p: Part, mimeType: string)
    ensures IsFirstWanted(Flatten(p), mimeType, FindPart(p, mimeType))
    decreases p
  {
    var self := if Wanted(p, mimeType) then Some(p) else None;
    assert [p][0] == p;
    FindAmongIsFirst(p.parts, mimeType);
    FirstOfConcat([p], FlattenAll(p.parts), mimeType, self, FindAmong(p.parts, mimeType));
  }

  lemma {:induction false} FindAmongIsFirst(ps: seq<Part>, mimeType: string)
    ensures IsFirstWanted(FlattenAll(ps), mimeType, FindAmong(ps, mimeType))
    decreases ps
  {
    if ps != [] {
      FindPartIsFirst(ps[0], mimeType);
      FindAmongIsFirst(ps[1..], mimeType);
      FirstOfConcat(Flatten(ps[0]), FlattenAll(ps[1..]), mimeType,
                    FindPart(ps[0], mimeType), FindAmong(ps[1..], mimeType));
    }
  }

  /** A part of the type counts when its content is inline or stored separately, and only then. */
  lemma ContentIsFound(p: Part, data: string, id: string)
    ensures var body := Body(None, None, None);
            && FindPart(p.(body := Some(body.(data := Some(data)))), p.mimeType)
               == Some(p.(body := Some(body.(data := Some(data)))))
            && FindPart(p.(body := Some(body.(attachmentId := Some(id)))), p.mimeType)
               == Some(p.(body := Some(body.(attachmentId := Some(id)))))
            && (p.parts == [] ==> FindPart(p.(body := Some(body)), p.mimeType) == None)
            && (p.parts == [] ==> FindPart(p.(body := None), p.mimeType) == None)
  {
  }

  // ---------------------------------------------------------------- attachments

  /** `header_value`: the first header of that name, in any ASCII case. */
  function HeaderValue(headers: seq<Header>, name: string): Option<string> {
    if headers == [] then None
    else if EqIgnoreCase(headers[0].name, name) then Some(headers[0].value)
    else HeaderValue(headers[1..], name)
  }

  function WithoutLeading(s: string, c: char): string {
    if s != "" && s[0] == c then WithoutLeading(s[1..], c) else s
  }

  function WithoutTrailing(s: string, c: char): string {
    if s != "" && s[|s| - 1] == c then WithoutTrailing(s[..|s| - 1], c) else s
  }

  function ContentId(p: Part): Option<string> {
    if p.headers.None? then None
    else match HeaderValue(p.headers.value, "Content-ID")
         case None => None
         case Some(v) => Some(WithoutTrailing(WithoutLeading(v, '<'), '>'))
  }

  /** A part that names a file and refers to stored content. */
  predicate CarriesFile(p: Part) {
    p.filename.Some? && p.filename.value != "" && p.body.Some? && p.body.value.attachmentId.Some?
  }

  function AsAttachment(p: Part): Attachment
    requires CarriesFile(p)
  {
    Attachment(p.body.value.attachmentId.value, p.filename.value, p.mimeType,
               if p.body.value.size.Some? then p.body.value.size.value else 0)
  }

  function AsInline(p: Part): InlineImage
    requires CarriesFile(p) && ContentId(p).Some?
  {
    InlineImage(ContentId(p).value, p.mimeType, p.body.value.attachmentId.value)
  }

  /** The regular attachments of a list of parts, in its order. */
  function Regular(q: seq<Part>): seq<Attachment> {
    if q == [] then []
    else (if CarriesFile(q[0]) && ContentId(q[0]).None? then [AsAttachment(q[0])] else []) + Regular(q[1..])
  }

  /** The inline images of a list of parts, in its order. */
  function Inline(q: seq<Part>): seq<InlineImage> {
    if q == [] then []
    else (if CarriesFile(q[0]) && ContentId(q[0]).Some? then [AsInline(q[0])] else []) + Inline(q[1..])
  }

  lemma {:induction false} RegularOfConcat(q: seq<Part>, rest: seq<Part>)
    ensures Regular(q + rest) == Regular(q) + Regular(rest)
  {
    hide CarriesFile, ContentId, AsAttachment;
    if q == [] {
      assert q + rest == rest;
    } else {
      assert (q + rest)[0] == q[0] && (q + rest)[1..] == q[1..] + rest;
      RegularOfConcat(q[1..], rest);
    }
  }

  lemma {:induction false} InlineOfConcat(q: seq<Part>, rest: seq<Part>)
    ensures Inline(q + rest) == Inline(q) + Inline(rest)
  {
    hide CarriesFile, ContentId, AsInline;
    if q == [] {
      assert q + rest == rest;
    } else {
      assert (q + rest)[0] == q[0] && (q + rest)[1..] == q[1..] + rest;
      InlineOfConcat(q[1..], rest);
    }
  }

  lemma ListsOfConcat(q: seq<Part>, rest: seq<Part>)
    ensures Regular(q + rest) == Regular(q) + Regular(rest)
    ensures Inline(q + rest) == Inline(q) + Inline(rest)
  {
    hide *;
    RegularOfConcat(q, rest);
    InlineOfConcat(q, rest);
  }

  /** The columns of an attachment are those of its part; an unknown size is zero. */
  predicate ShowsFile(x: Attachment, p: Part) {
    && p.body.Some? && p.body.value.attachmentId == Some(x.id) && p.filename == Some(x.filename)
    && x.mimeType == p.mimeType && (p.body.value.size == Some(x.size) || (p.body.value.size == None && x.size == 0))
  }

  predicate ShowsInline(x: InlineImage, p: Part) {
    && p.body.Some? && p.body.value.attachmentId == Some(x.attachmentId)
    && x.mimeType == p.mimeType && ContentId(p) == Some(x.contentId)
  }

  /** The brackets around a content id are not part of it. */
  lemma {:induction false} WithoutBrackets(s: string)
    requires s != "" ==> s[0] != '<' && s[|s| - 1] != '>'
    ensures WithoutTrailing(WithoutLeading("<" + s + ">", '<'), '>') == s
    ensures WithoutTrailing(WithoutLeading(s, '<'), '>') == s
  {
    var t := "<" + s + ">";
    assert t[1..] == s + ">";
    assert (s + ">")[..|s|] == s;
    assert WithoutLeading(t, '<') == WithoutLeading(s + ">", '<') == s + ">";
  }

  /** The content id of a part is the value of its first header of that name, in any case, without its brackets. */
  lemma ContentIdIsTheHeader(p: Part, i: nat, s: string)
    requires p.headers.Some? && i < |p.headers.value| && EqIgnoreCase(p.headers.value[i].name, "Content-ID")
    requires forall j | 0 <= j < i :: !EqIgnoreCase(p.headers.value[j].name, "Content-ID")
    requires p.headers.value[i].value == "<" + s + ">" || p.headers.value[i].value == s
    requires s != "" ==> s[0] != '<' && s[|s| - 1] != '>'
    ensures ContentId(p) == Some(s)
  {
    hide EqIgnoreCase;
    HeaderIsFirst(p.headers.value, "Content-ID", i);
    WithoutBrackets(s);
  }

  lemma {:induction false} HeaderIsFirst(headers: seq<Header>, name: string, i: nat)
    requires i < |headers| && EqIgnoreCase(headers[i].name, name)
    requires forall j | 0 <= j < i :: !EqIgnoreCase(headers[j].name, name)
    ensures HeaderValue(headers, name) == Some(headers[i].value)
  {
    hide EqIgnoreCase;
    if i > 0 {
      HeaderIsFirst(headers[1..], name, i - 1);
    }
  }

  lemma {:induction false} NoHeader(headers: seq<Header>, name: string)
    requires forall j | 0 <= j < |headers| :: !EqIgnoreCase(headers[j].name, name)
    ensures HeaderValue(headers, name) == None
  {
    hide EqIgnoreCase;
    if headers != [] {
      NoHeader(headers[1..], name);
    }
  }

  /**
   * Every file-carrying part has its own place: in the inline list when it has a content id,
   * among the attachments otherwise, after exactly the earlier parts of its kind.
   */
  lemma EachFileHasItsPlace(q: seq<Part>, i: nat)
    requires i < |q| && CarriesFile(q[i])
    ensures if ContentId(q[i]).Some?
            then |Inline(q[..i])| < |Inline(q)| && ShowsInline(Inline(q)[|Inline(q[..i])|], q[i])
            else |Regular(q[..i])| < |Regular(q)| && ShowsFile(Regular(q)[|Regular(q[..i])|], q[i])
  {
    assert q == q[..i] + q[i..];
    ListsOfConcat(q[..i], q[i..]);
  }

  /** Nothing else is listed: every entry shows a part with a file name and stored content. */
  lemma {:induction false} EntriesShowFiles(q: seq<Part>)
    ensures forall x | x in Regular(q) ::
              x.filename != "" && exists p | p in q :: ShowsFile(x, p) && ContentId(p) == None
    ensures forall x | x in Inline(q) ::
              exists p | p in q :: ShowsInline(x, p) && p.filename != None && p.filename != Some("")
  {
    hide ContentId;
    if q != [] {
      EntriesShowFiles(q[1..]);
      assert q[0] in q && forall p | p in q[1..] :: p in q;
    }
  }

  /** The number of file-carrying parts. */
  function Files(q: seq<Part>): nat {
    if q == [] then 0 else (if CarriesFile(q[0]) then 1 else 0) + Files(q[1..])
  }

  /** No file is in both lists and none is missing. */
  lemma {:induction false} FilesAreSplit(q: seq<Part>)
    ensures |Regular(q)| + |Inline(q)| == Files(q)
  {
    if q != [] {
      FilesAreSplit(q[1..]);
    }
  }

  /** `collect_attachments`: the walk appends exactly the files of the tree, in pre-order. */
  method CollectAttachments(part: Part, found: seq<Attachment>, inlineFound: seq<InlineImage>)
    returns (out: seq<Attachment>, inlineOut: seq<InlineImage>)
    ensures out == found + Regular(Flatten(part))
    ensures inlineOut == inlineFound + Inline(Flatten(part))
    decreases part
  {
    out, inlineOut := found, inlineFound;
    if part.filename.Some? && part.body.Some? {
      if part.filename.value != "" {
        if part.body.value.attachmentId.Some? {
          var attachmentId := part.body.value.attachmentId.value;
          match ContentId(part)
          case Some(contentId) =>
            inlineOut := inlineOut + [InlineImage(contentId, part.mimeType, attachmentId)];
          case None =>
            var size := if part.body.value.size.Some? then part.body.value.size.value else 0;
            out := out + [Attachment(attachmentId, part.filename.value, part.mimeType, size)];
        }
      }
    }
    OwnFile(part);
    FlattenUnfolds(part);
    ListsOfConcat([part], FlattenAll(part.parts));
    hide Regular, Inline, Flatten, FlattenAll, CarriesFile, ContentId;
    Regroup(found, Regular([part]), Regular(FlattenAll(part.parts)));
    Regroup(inlineFound, Inline([part]), Inline(FlattenAll(part.parts)));
    assert part.parts[0..] == part.parts;
    for i := 0 to |part.parts|
      invariant out + Regular(FlattenAll(part.parts[i..])) == found + Regular(Flatten(part))
      invariant inlineOut + Inline(FlattenAll(part.parts[i..])) == inlineFound + Inline(Flatten(part))
    {
      ChildFirst(part.parts, i);
      Regroup(out, Regular(Flatten(part.parts[i])), Regular(FlattenAll(part.parts[i + 1..])));
      Regroup(inlineOut, Inline(Flatten(part.parts[i])), Inline(FlattenAll(part.parts[i + 1..])));
      out, inlineOut := CollectAttachments(part.parts[i], out, inlineOut);
    }
    NoChildLeft(part.parts);
  }

  lemma Regroup<T>(x: seq<T>, y: seq<T>, z: seq<T>)
    ensures (x + y) + z == x + (y + z) && x + [] == x
  {
  }

  lemma OwnFile(p: Part)
    ensures Regular([p]) == if CarriesFile(p) && ContentId(p).None? then [AsAttachment(p)] else []
    ensures Inline([p]) == if CarriesFile(p) && ContentId(p).Some? then [AsInline(p)] else []
  {
    hide ContentId;
  }

  lemma FlattenUnfolds(p: Part)
    ensures Flatten(p) == [p] + FlattenAll(p.parts)
  {
  }

  lemma NoChildLeft(ps: seq<Part>)
    ensures Regular(FlattenAll(ps[|ps|..])) == [] && Inline(FlattenAll(ps[|ps|..])) == []
  {
  }

  lemma ChildFirst(ps: seq<Part>, i: nat)
    requires i < |ps|
    ensures Regular(FlattenAll(ps[i..])) == Regular(Flatten(ps[i])) + Regular(FlattenAll(ps[i + 1..]))
    ensures Inline(FlattenAll(ps[i..])) == Inline(Flatten(ps[i])) + Inline(FlattenAll(ps[i + 1..]))
  {
    assert ps[i..][0] == ps[i] && ps[i..][1..] == ps[i + 1..];
    ListsOfConcat(Flatten(ps[i]), FlattenAll(ps[i + 1..]));
  }
}
