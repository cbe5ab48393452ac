/** The default-exported helper of _components/gddoc.js. It turns a shorthand
    token "<kind> <Name>.<Member>" into a link to the Godot class reference:
    the page of class Name, with a fragment for the member unless kind is
    "class". Where the JavaScript throws a TypeError, the model returns Err. */
module GdDoc {
  import opened JsText

  /** The two ways the helper throws: no second word to split at '.' (line 3),
      and a "method" without a member to call startsWith on (line 6). */
  datatype Failure = NoSecondWord | MethodWithoutMember

  datatype Result<+T> = Ok(value: T) | Err(failure: Failure)

  /** The parts of the token (lines 2-4); member is None where JavaScript has
      undefined, that is when the second word has no '.'. */
  datatype Reference = Reference(kind: string, name: string, member: Option<string>)

  function ParseReference(gd: string): Result<Reference>
  {
    var words := Split(gd, ' ');
    if |words| < 2 then Err(NoSecondWord)
    else
      var parts := Split(words[1], '.');
      Ok(Reference(words[0], parts[0], if |parts| >= 2 then Some(parts[1]) else None))
  }

  /** A reference the rest of the helper can run on without throwing. */
  predicate Renderable(r: Reference)
  {
    r.kind == "method" ==> r.member.Some?
  }

  /** Lines 6-8: a method whose member starts with '_' is private. */
  function KindSegment(r: Reference): string
    requires Renderable(r)
  {
    if r.kind == "method" && r.member.value != [] && r.member.value[0] == '_' then "private-method"
    else r.kind
  }

  /** member.replaceAll('_', '-') */
  function ReplaceUnderscores(m: string): (r: string)
    ensures |r| == |m|
    ensures forall i :: 0 <= i < |m| ==> r[i] == (if m[i] == '_' then '-' else m[i])
  {
    if m == [] then [] else [if m[0] == '_' then '-' else m[0]] + ReplaceUnderscores(m[1..])
  }

  /** Line 10: every '_' becomes '-', then one leading '-' is dropped. */
  function EscapeMember(m: string): string
  {
    var d := ReplaceUnderscores(m);
    if d != [] && d[0] == '-' then d[1..] else d
  }

  /** How a template literal shows a string that may be undefined. */
  function TemplateText(m: Option<string>): string
  {
    match m
    case None => "undefined"
    case Some(s) => s
  }

  function EscapedMember(m: Option<string>): Option<string>
  {
    match m
    case None => None
    case Some(s) => Some(EscapeMember(s))
  }

  const DocsBase: string := "https://docs.godotengine.org/en/stable/classes/class_"

  /** Lines 12 and 15-16. */
  function Href(r: Reference): string
    requires Renderable(r)
  {
    var page := DocsBase + Lower(r.name) + ".html";
    if r.kind == "class" then page
    else page + ("#class-" + Lower(r.name) + "-" + KindSegment(r) + "-" + TemplateText(EscapedMember(r.member)))
  }

  /** Lines 13 and 17-20. */
  function LinkText(r: Reference): string
  {
    if r.kind == "class" then r.name
    else r.name + "." + TemplateText(r.member) + (if r.kind == "method" then "()" else "")
  }

  /** Line 22. */
  function Anchor(href: string, text: string): string
  {
    "<a class=\"gd-link\" href=\"" + href + "\" target=\"_blank\"><code>" + text + "</code></a>"
  }

  /** The whole helper. */
  function Render(gd: string): Result<string>
  {
    match ParseReference(gd)
    case Err(f) => Err(f)
    case Ok(r) =>
      if !Renderable(r) then Err(MethodWithoutMember)
      else Ok(Anchor(Href(r), LinkText(r)))
  }

  // ---------------------------------------------------------------------------
  // What the helper promises
  // ---------------------------------------------------------------------------

  /** The helper throws exactly when the token has no space, or when its first
      word is "method" and its second word has no '.'. */
  lemma RenderFails(gd: string)
    ensures Render(gd) == Err(NoSecondWord) <==> ' ' !in gd
    ensures Render(gd) == Err(MethodWithoutMember) <==>
      ' ' in gd && Split(gd, ' ')[0] == "method" && '.' !in Split(gd, ' ')[1]
  {
    SplitHasSecond(gd, ' ');
    if ' ' in gd {
      SplitHasSecond(Split(gd, ' ')[1], '.');
    }
  }

  /** Whatever the token, a rendered link is the fixed anchor around the href
      and text of the parsed reference, and its href starts with the class
      page of the lower-cased Name. */
  lemma RenderShape(gd: string)
    ensures Render(gd).Ok? ==>
      var r := ParseReference(gd).value;
      Renderable(r) &&
      Render(gd).value == Anchor(Href(r), LinkText(r)) &&
      DocsBase + Lower(r.name) + ".html" <= Href(r)
  {
  }

  /** Read back from a well-formed token "<kind> <Name>.<Member>", the parts
      are exactly the words the token was built from. */
  lemma ParseWellFormed(kind: string, name: string, member: string)
    requires ' ' !in kind && ' ' !in name && ' ' !in member
    requires '.' !in name && '.' !in member
    ensures ParseReference(kind + " " + name + "." + member) == Ok(Reference(kind, name, Some(member)))
  {
    var second := name + "." + member;
    assert ' ' !in second;
    SplitAt(kind, second, ' ');
    SplitWithout(second, ' ');
    assert kind + " " + name + "." + member == kind + [' '] + second;
    SplitAt(name, member, '.');
    SplitWithout(member, '.');
    assert name + "." + member == name + ['.'] + member;
  }

  /** A token "<kind> <Name>" without a member. */
  lemma ParseMemberless(kind: string, name: string)
    requires ' ' !in kind && ' ' !in name && '.' !in name
    ensures ParseReference(kind + " " + name) == Ok(Reference(kind, name, None))
  {
    SplitAt(kind, name, ' ');
    SplitWithout(name, ' ');
    assert kind + " " + name == kind + [' '] + name;
    SplitWithout(name, '.');
  }

  /** The link for a well-formed token: for kind "class" the class page and
      the bare Name; otherwise the page with fragment
      class-<name>-<kind>-<member>, where a member starting with '_' makes a
      method private, and the text Name.Member, with "()" for a method. */
  lemma RenderWellFormed(kind: string, name: string, member: string)
    requires ' ' !in kind && ' ' !in name && ' ' !in member
    requires '.' !in name && '.' !in member
    ensures kind == "class" ==>
      Render(kind + " " + name + "." + member) == Ok(Anchor(DocsBase + Lower(name) + ".html", name))
    ensures kind != "class" ==>
      var private := kind == "method" && member != [] && member[0] == '_';
      Render(kind + " " + name + "." + member) == Ok(Anchor(
        DocsBase + Lower(name) + ".html" + ("#class-" + Lower(name) + "-" +
          (if private then "private-method" else kind) + "-" + EscapeMember(member)),
        name + "." + member + (if kind == "method" then "()" else "")))
  {
    ParseWellFormed(kind, name, member);
    RenderParsed(kind + " " + name + "." + member, Reference(kind, name, Some(member)));
  }

  /** Once the token parses to a renderable reference, the helper returns
      the anchor for it. */
  lemma RenderParsed(gd: string, r: Reference)
    requires ParseReference(gd) == Ok(r) && Renderable(r)
    ensures Render(gd) == Ok(Anchor(Href(r), LinkText(r)))
  {
  }

  /** Without a member, a class link is still the class page; a method
      throws; any other kind links to a fragment ending in "undefined" and
      shows the text Name.undefined. */
  lemma RenderMemberless(kind: string, name: string)
    requires ' ' !in kind && ' ' !in name && '.' !in name
    ensures kind == "class" ==>
      Render(kind + " " + name) == Ok(Anchor(DocsBase + Lower(name) + ".html", name))
    ensures kind == "method" ==> Render(kind + " " + name) == Err(MethodWithoutMember)
    ensures kind != "class" && kind != "method" ==>
      Render(kind + " " + name) == Ok(Anchor(
        DocsBase + Lower(name) + ".html" + ("#class-" + Lower(name) + "-" + kind + "-" + "undefined"),
        name + "." + "undefined"))
  {
    ParseMemberless(kind, name);
    var gd, r := kind + " " + name, Reference(kind, name, None);
    if kind == "method" {
      assert !Renderable(r);
    } else {
      RenderParsed(gd, r);
      if kind != "class" {
        assert TemplateText(EscapedMember(r.member)) == "undefined";
        assert Href(r) == DocsBase + Lower(name) + ".html" + ("#class-" + Lower(name) + "-" + kind + "-" + "undefined");
        assert LinkText(r) == name + "." + "undefined";
      }
    }
  }

  /** The escaped member holds no '_': each '_' became '-', and a leading
      '_' or '-' is dropped. */
  lemma EscapeMemberSpec(m: string)
    ensures '_' !in EscapeMember(m)
    ensures EscapeMember(m) == if m != [] && (m[0] == '_' || m[0] == '-') then ReplaceUnderscores(m[1..]) else ReplaceUnderscores(m)
  {
    var d := ReplaceUnderscores(m);
    if m != [] {
      assert d[1..] == ReplaceUnderscores(m[1..]);
    }
    assert forall i :: 0 <= i < |d| ==> d[i] != '_';
  }


  /** The text ends with "()" exactly for a method, as long as neither the
      Name nor the Member ends with ')' itself. */
  lemma MethodParens(r: Reference)
    requires r.name == [] || r.name[|r.name| - 1] != ')'
    requires r.member.Some? ==> r.member.value == [] || r.member.value[|r.member.value| - 1] != ')'
    ensures var t := LinkText(r); (|t| >= 2 && t[|t| - 2..] == "()") <==> r.kind == "method"
  {
    var t := LinkText(r);
    if r.kind == "method" {
      assert t[|t| - 2..] == "()";
    } else if r.kind != "class" {
      var m := TemplateText(r.member);
      assert t == r.name + "." + m;
      assert t[|t| - 1] == (if m == [] then '.' else m[|m| - 1]);
    }
  }

  /** The private-method segment appears exactly for a method whose member
      starts with '_'; every other kind is used as written. */
  lemma KindSegmentSpec(r: Reference)
    requires Renderable(r)
    ensures KindSegment(r) == "private-method" <==>
      r.kind == "private-method" || (r.kind == "method" && r.member.value != [] && r.member.value[0] == '_')
    ensures KindSegment(r) != "private-method" ==> KindSegment(r) == r.kind
  {
  }

}
