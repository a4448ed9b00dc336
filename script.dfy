// The page script: members are added while the page is being set up; the first render
// freezes the member list, after which adding fails.

module Scripts {
  import opened Wrappers
  import opened Strings
  import opened Markup
  import Elements

  /** A script member: the declaration of a page's `onLoad` function, or another member given by its text. */
  datatype ScriptMember = OnLoadDeclaration | Member(text: string)

  /** Each member's text, in order, for a given way of rendering members. */
  function Texts(members: seq<ScriptMember>, render: ScriptMember -> string): (r: seq<string>)
    ensures |r| == |members| && forall i :: 0 <= i < |members| ==> r[i] == render(members[i])
  {
    if |members| == 0 then [] else [render(members[0])] + Texts(members[1..], render)
  }

  /** How a page script's members render: the `onLoad` declaration as `declaration`, any other member as its text. */
  function RenderWith(declaration: string): (render: ScriptMember -> string)
    ensures render(OnLoadDeclaration) == declaration
    ensures forall text :: render(Member(text)) == text
  {
    (m: ScriptMember) => if m.OnLoadDeclaration? then declaration else m.text
  }

  const DefaultUrl: string := "/script.js"

  class Script {
    var members: seq<ScriptMember>
    /** Set by the first render. */
    var exposed: bool
    var url: string

    constructor()
      ensures members == [] && !exposed && url == DefaultUrl
    {
      members := [];
      exposed := false;
      url := DefaultUrl;
    }

    /** Appends a member; fails, changing nothing, once the script has been rendered. */
    method Add(member: ScriptMember) returns (ok: bool)
      modifies this
      ensures ok <==> !old(exposed)
      ensures ok ==> members == old(members) + [member]
      ensures !ok ==> members == old(members)
      ensures exposed == old(exposed) && url == old(url)
    {
      if exposed {
        ok := false;
      } else {
        members := members + [member];
        ok := true;
      }
    }

    function IsEmpty(): (r: bool)
      reads this
      ensures r <==> members == []
    {
      |members| == 0
    }

    /** The members' texts one after the other; from now on the script accepts no more members. */
    method Render(render: ScriptMember -> string) returns (text: string)
      modifies this
      ensures exposed && members == old(members) && url == old(url)
      ensures text == Concat(Texts(members, render))
    {
      exposed := true;
      text := "";
      var i := 0;
      while i < |members|
        invariant 0 <= i <= |members|
        invariant exposed && members == old(members) && url == old(url)
        invariant text == Concat(Texts(members[..i], render))
      {
        assert Texts(members[..i + 1], render) == Texts(members[..i], render) + [render(members[i])];
        ConcatSnoc(Texts(members[..i], render), render(members[i]));
        text := text + render(members[i]);
        i := i + 1;
      }
      assert members[..i] == members;
    }

    method SetUrl(url: string)
      modifies this
      ensures this.url == url && members == old(members) && exposed == old(exposed)
    {
      this.url := url;
    }

    /** The `script` element loading the script: its type, then its source. */
    function AsElement(): (e: Html)
      reads this
      ensures e.Element? && e.name == "script" && e.contents == [] && e.onload == []
      ensures e.attributes == [AttributeOfString("type", "text/javascript"), AttributeOfString("src", url)]
    {
      Elements.ElementOf("script", [AttributeOfString("type", "text/javascript"), AttributeOfString("src", url)], [])
    }
  }

  /** Once rendered, a script renders the same text again, even if a member was offered in between. */
  method RenderingFreezes(s: Script, late: ScriptMember, render: ScriptMember -> string) returns (first: string, second: string)
    modifies s
    ensures first == second
  {
    first := s.Render(render);
    var ok := s.Add(late);
    assert !ok;
    second := s.Render(render);
  }
}
