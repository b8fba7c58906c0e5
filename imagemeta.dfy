/**
 * Image alt-text lookup of constants.ts: the metadata table, `basename`,
 * and `getImageMeta`, which throws in a development build and falls back
 * to a fixed entry in a production build when a file name is unknown.
 */
module ImageMetadata {
  import opened Wrappers
  import opened JsString

  /** The `ImageMeta` record: an alt text and an optional description. */
  datatype ImageMeta = ImageMeta(alt: string, description: Option<string>)

  const EXECUTIVE_ALT := "Dan Mercede, Founder & Systems Architect of a governed AI operating system"
  const WORKING_ALT := "Dan Mercede working as founder and systems architect on governed AI systems"
  const SOCIAL_ALT := "Dan Mercede, founder and systems architect in a working environment"

  /** `IMAGE_METADATA`, keyed by file name. */
  const IMAGE_METADATA: map<string, ImageMeta> := map[
    "dan-mercede-executive-authority.png" := ImageMeta(EXECUTIVE_ALT, Some(
      "Executive portrait of Dan Mercede, founder and systems architect focused on governed AI systems and enterprise control planes.")),
    "dan-mercede-executive-outdoor.png" := ImageMeta(EXECUTIVE_ALT, Some(
      "Outdoor executive portrait of Dan Mercede, founder and systems architect specializing in governed AI and system control architecture.")),
    "dan-mercede-executive-relaxed.png" := ImageMeta(EXECUTIVE_ALT, Some(
      "Relaxed executive portrait of Dan Mercede, founder and systems architect working in governed AI and enterprise AI governance.")),
    "dan-mercede-founder-headshot.png" := ImageMeta(WORKING_ALT, Some(
      "Founder headshot of Dan Mercede, actively building and operating governed AI systems with a focus on execution and architecture.")),
    "dan-mercede-founder-headshot-sm.png" := ImageMeta(WORKING_ALT, Some(
      "Scaled founder headshot of Dan Mercede focused on hands-on AI system design and governance.")),
    "dan-mercede-founder-headshot-xs.png" := ImageMeta(WORKING_ALT, Some(
      "Compact founder headshot of Dan Mercede emphasizing hands-on work in governed AI systems.")),
    "dan-mercede-founder-social-landscape.png" := ImageMeta(SOCIAL_ALT, Some(
      "Landscape portrait of Dan Mercede in a casual working environment, representing hands-on leadership in governed AI systems.")),
    "dan-mercede-founder-social-portrait.png" := ImageMeta(SOCIAL_ALT, Some(
      "Portrait of Dan Mercede in a social working context, reflecting active system design and founder-led execution.")),
    "dan-mercede-founder-working-landscape.png" := ImageMeta(WORKING_ALT, Some(
      "Landscape image of Dan Mercede actively working on governed AI system architecture and execution.")),
    "dan-mercede-founder-working-portrait.png" := ImageMeta(WORKING_ALT, Some(
      "Portrait of Dan Mercede in a focused working setting, emphasizing hands-on system building and AI governance."))
  ]

  /** The production fallback for an unknown file name. */
  const FALLBACK := ImageMeta("Dan Mercede", None)

  /** Every entry of the table carries a non-empty alt text. */
  predicate AllAltsNonEmpty(table: map<string, ImageMeta>) {
    forall k :: k in table ==> table[k].alt != ""
  }

  /** `src.split("/").pop() || src`: the last path segment, or the whole input when that segment is empty. */
  function Basename(src: string): string {
    var last := Last(Split(src, '/'));
    if last == "" then src else last
  }

  /** A string without '/' is its own basename. */
  lemma BasenameNoSlash(src: string)
    requires '/' !in src
    ensures Basename(src) == src
  {
    SplitNoSeparator(src, '/');
  }

  /** For `dir + "/" + name` with a non-empty, slash-free `name`, the basename is `name`. */
  lemma BasenameAfterLastSlash(dir: string, name: string)
    requires '/' !in name && name != ""
    ensures Basename(dir + "/" + name) == name
  {
    SplitConcat(dir, name, '/');
    SplitNoSeparator(name, '/');
  }

  /** A path ending in '/' has an empty last segment, so the `|| src` fallback returns it unchanged. */
  lemma BasenameTrailingSlash(dir: string)
    ensures Basename(dir + "/") == dir + "/"
  {
    SplitConcat(dir, "", '/');
    assert dir + "/" == dir + ['/'] + "";
  }

  /**
   * The whole behaviour of `basename`, over every input: with no '/', the
   * input; otherwise the text after the last '/', or the input itself when
   * that text is empty.
   */
  lemma {:induction false} BasenameSpec(src: string, k: nat)
    requires k < |src| && src[k] == '/' && '/' !in src[k + 1..]
    ensures Basename(src) == if k + 1 == |src| then src else src[k + 1..]
  {
    assert src == src[..k] + "/" + src[k + 1..];
    if k + 1 == |src| {
      assert src == src[..k] + "/";
      BasenameTrailingSlash(src[..k]);
    } else {
      BasenameAfterLastSlash(src[..k], src[k + 1..]);
    }
  }

  /** The basename of a basename is itself. */
  lemma BasenameIdempotent(src: string)
    ensures Basename(Basename(src)) == Basename(src)
  {
    var last := Last(Split(src, '/'));
    if last != "" {
      assert '/' !in last;
      BasenameNoSlash(last);
    }
  }

  /** `getImageMeta(srcOrFilename)`, with the build mode (`import.meta.env.DEV`) as a parameter. */
  function GetImageMeta(srcOrFilename: string, dev: bool): (r: Result<ImageMeta, string>)
    ensures var key := Basename(srcOrFilename);
      && (key in IMAGE_METADATA ==> r == Success(IMAGE_METADATA[key]))
      && (key !in IMAGE_METADATA && dev ==> r == Failure("Missing IMAGE_METADATA for: " + key))
      && (key !in IMAGE_METADATA && !dev ==> r == Success(FALLBACK))
  {
    var key := Basename(srcOrFilename);
    if key in IMAGE_METADATA then Success(IMAGE_METADATA[key])
    else if dev then Failure("Missing IMAGE_METADATA for: " + key)
    else Success(FALLBACK)
  }

  /** Only the basename matters: a full path and its file name get the same answer. */
  lemma GetImageMetaKeysOnBasename(srcOrFilename: string, dev: bool)
    ensures GetImageMeta(srcOrFilename, dev) == GetImageMeta(Basename(srcOrFilename), dev)
  {
    BasenameIdempotent(srcOrFilename);
  }

  /** In particular `"/dir/x.png"` and `"x.png"` yield the same metadata. */
  lemma GetImageMetaIgnoresDirectory(dir: string, name: string, dev: bool)
    requires '/' !in name && name != ""
    ensures GetImageMeta(dir + "/" + name, dev) == GetImageMeta(name, dev)
  {
    BasenameAfterLastSlash(dir, name);
    BasenameNoSlash(name);
  }

  /** Every metadata record `getImageMeta` returns has a non-empty alt text. */
  lemma GetImageMetaAltNonEmpty(srcOrFilename: string, dev: bool)
    ensures GetImageMeta(srcOrFilename, dev).Success? ==> GetImageMeta(srcOrFilename, dev).value.alt != ""
  {
    assert AllAltsNonEmpty(IMAGE_METADATA);
  }

  /** An error is thrown only in a development build, and only for a key outside the table. */
  lemma GetImageMetaFailsOnlyInDev(srcOrFilename: string, dev: bool)
    ensures GetImageMeta(srcOrFilename, dev).Failure? <==> dev && Basename(srcOrFilename) !in IMAGE_METADATA
  {
  }

  // The lookup as written reads a property of a plain object literal, and
  // such a read also finds what the object inherits from Object.prototype.

  /** The names every plain object literal inherits from `Object.prototype`. */
  const OBJECT_PROTOTYPE_KEYS: set<string> := {
    "constructor", "__proto__", "hasOwnProperty", "isPrototypeOf", "propertyIsEnumerable",
    "toLocaleString", "toString", "valueOf",
    "__defineGetter__", "__defineSetter__", "__lookupGetter__", "__lookupSetter__"
  }

  /** Every key of the table starts with "dan-mercede-". */
  lemma TableKeysAreFileNames()
    ensures forall k :: k in IMAGE_METADATA ==> |k| >= 12 && k[..12] == "dan-mercede-"
  {
  }

  /** No key of the table is an `Object.prototype` member: on table keys the own-entry read always wins. */
  lemma TableKeysAreNotPrototypeKeys()
    ensures forall k :: k in IMAGE_METADATA ==> k !in OBJECT_PROTOTYPE_KEYS
  {
  }

  /** What `(IMAGE_METADATA as Record<string, ImageMeta>)[key]` evaluates to. */
  datatype PropertyValue =
    | OwnEntry(meta: ImageMeta)        // one of the table's own entries
    | InheritedMember(name: string)    // a function (or the prototype object), truthy but no ImageMeta
    | Undefined

  /** A bracket read on the table object, own keys first, then the prototype chain. */
  function ReadProperty(key: string): (v: PropertyValue)
    ensures key in IMAGE_METADATA ==> v == OwnEntry(IMAGE_METADATA[key])
    ensures key !in IMAGE_METADATA ==> (v.Undefined? <==> key !in OBJECT_PROTOTYPE_KEYS)
  {
    if key in IMAGE_METADATA then OwnEntry(IMAGE_METADATA[key])
    else if key in OBJECT_PROTOTYPE_KEYS then InheritedMember(key)
    else Undefined
  }

  /** `.alt` of the value `getImageMeta` hands back; an inherited member has no such property. */
  function AltOf(v: PropertyValue): Option<string> {
    match v
    case OwnEntry(meta) => Some(meta.alt)
    case _ => None
  }

  /** `getImageMeta` as written: `if (!meta)` catches only `undefined`, so an inherited member is returned as metadata. */
  function GetImageMetaAsWritten(srcOrFilename: string, dev: bool): (r: Result<PropertyValue, string>)
    ensures var key := Basename(srcOrFilename);
      && (ReadProperty(key).Undefined? && dev ==> r == Failure("Missing IMAGE_METADATA for: " + key))
      && (ReadProperty(key).Undefined? && !dev ==> r == Success(OwnEntry(FALLBACK)))
      && (!ReadProperty(key).Undefined? ==> r == Success(ReadProperty(key)))
  {
    var key := Basename(srcOrFilename);
    var meta := ReadProperty(key);
    if meta.Undefined? then
      if dev then Failure("Missing IMAGE_METADATA for: " + key) else Success(OwnEntry(FALLBACK))
    else Success(meta)
  }

  /** For a file name that is not an `Object.prototype` member, the code as written and `GetImageMeta` agree. */
  lemma AsWrittenAgreesOffPrototype(srcOrFilename: string, dev: bool)
    requires Basename(srcOrFilename) !in OBJECT_PROTOTYPE_KEYS
    ensures GetImageMetaAsWritten(srcOrFilename, dev) ==
      match GetImageMeta(srcOrFilename, dev)
      case Success(meta) => Success(OwnEntry(meta))
      case Failure(e) => Failure(e)
  {
  }

  /**
   * `getImageMeta("constructor")` neither throws in development nor falls
   * back in production: it returns the inherited `Object` constructor,
   * whose `alt` is undefined.
   */
  lemma PrototypeKeyEscapesFallback(dev: bool)
    ensures GetImageMetaAsWritten("constructor", dev) == Success(InheritedMember("constructor"))
    ensures AltOf(GetImageMetaAsWritten("constructor", dev).value) == None
  {
    var key := "constructor";
    BasenameNoSlash(key);
    assert key in OBJECT_PROTOTYPE_KEYS;
    TableKeysAreNotPrototypeKeys();
    assert ReadProperty(key) == InheritedMember(key);
  }
}
