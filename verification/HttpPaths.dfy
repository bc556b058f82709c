/** What normalizing a path guarantees. */
module HttpPaths {
  import opened HttpText
  import opened HttpParse

  predicate NoSlash(s: string)
  {
    '/' !in s
  }

  /** A list of segments that walking does not change. */
  ghost predicate Plain(elements: seq<string>)
  {
    && elements != []
    && (forall i :: 0 <= i < |elements| ==> NoSlash(elements[i]) && '\0' !in elements[i])
    && (forall i :: 0 <= i < |elements| - 1 ==> elements[i] != "..")
  }

  /** The segments before the last: plain and never `..`. */
  ghost predicate PlainFront(elements: seq<string>)
  {
    forall i :: 0 <= i < |elements| ==> NoSlash(elements[i]) && '\0' !in elements[i] && elements[i] != ".."
  }

  lemma SlashAt(s: string, i: nat)
    requires i < |s|
    ensures At(s, i, "/") <==> s[i] == '/'
  {
    assert s[i..i + 1] == [s[i]];
  }

  lemma FindSlash(s: string)
    ensures var r := Find(s, "/", 0);
            if r < 0 then NoSlash(s) else NoSlash(s[..r]) && r < |s| && s[r] == '/'
  {
    var r := Find(s, "/", 0);
    forall i: nat | i < |s| ensures At(s, i, "/") <==> s[i] == '/' {
      SlashAt(s, i);
    }
  }

  /** The last segment of a path. */
  function LastSegment(rest: string): (r: string)
    decreases |rest|
  {
    var slash := Find(rest, "/", 0);
    if slash < 0 then rest else LastSegment(rest[slash + 1..])
  }

  lemma KeptPlain(elements: seq<string>, element: string)
    requires PlainFront(elements) && NoSlash(element) && '\0' !in element
    ensures PlainFront(Kept(elements, element))
  {
  }

  lemma LastPlain(elements: seq<string>, rest: string)
    requires PlainFront(elements) && NoSlash(rest) && '\0' !in rest
    ensures Plain(elements + [rest])
  {
  }

  lemma {:induction false} SegmentsPlain(rest: string, elements: seq<string>)
    requires PlainFront(elements) && '\0' !in rest
    ensures Plain(Segments(rest, elements))
    ensures Segments(rest, elements) != [] && Segments(rest, elements)[|Segments(rest, elements)| - 1] == LastSegment(rest)
    decreases |rest|
  {
    hide Find;
    hide Plain;
    hide PlainFront;
    FindSlash(rest);
    var slash := Find(rest, "/", 0);
    if slash >= 0 {
      KeptPlain(elements, rest[..slash]);
      SegmentsPlain(rest[slash + 1..], Kept(elements, rest[..slash]));
    } else {
      LastPlain(elements, rest);
    }
  }

  /** The segments without the slash before the first. */
  function JoinTail(elements: seq<string>): (r: string)
    requires elements != []
  {
    if |elements| == 1 then elements[0] else elements[0] + "/" + JoinTail(elements[1..])
  }

  lemma {:induction false} JoinIsSlashTail(elements: seq<string>)
    requires elements != []
    ensures Join(elements) == "/" + JoinTail(elements)
  {
    if |elements| > 1 {
      JoinIsSlashTail(elements[1..]);
      assert "/" + elements[0] + ("/" + JoinTail(elements[1..])) == "/" + (elements[0] + "/" + JoinTail(elements[1..]));
    } else {
      assert Join(elements[1..]) == [];
    }
  }

  lemma FirstSlash(a: string, b: string)
    requires NoSlash(a)
    ensures Find(a + "/" + b, "/", 0) == |a|
  {
    var s := a + "/" + b;
    forall i: nat | i < |s| ensures At(s, i, "/") <==> s[i] == '/' {
      SlashAt(s, i);
    }
    forall i | 0 <= i < |a| ensures !At(s, i, "/") {
      assert s[i] == a[i];
    }
    FindIs(s, "/", 0, |a|);
  }

  /** Walking the text of plain segments gives them back. */
  lemma {:induction false} SegmentsOfJoin(elements: seq<string>, before: seq<string>)
    requires Plain(elements)
    ensures Segments(JoinTail(elements), before) == before + elements
    decreases |elements|
  {
    hide Find;
    if |elements| == 1 {
      FindSlash(elements[0]);
      assert elements == [elements[0]];
    } else {
      var rest := JoinTail(elements[1..]);
      var text := elements[0] + "/" + rest;
      FirstSlash(elements[0], rest);
      assert text[..|elements[0]|] == elements[0] && text[|elements[0]| + 1..] == rest;
      SegmentsOfJoin(elements[1..], before + [elements[0]]);
      assert before + [elements[0]] + elements[1..] == before + elements;
    }
  }

  lemma {:induction false} CStrNoZero(s: string)
    ensures '\0' !in CStr(s)
    ensures '\0' !in s ==> CStr(s) == s
  {
    if s != [] && s[0] != '\0' { CStrNoZero(s[1..]); }
  }

  lemma {:induction false} JoinNoZero(elements: seq<string>)
    requires forall i :: 0 <= i < |elements| ==> '\0' !in elements[i]
    ensures '\0' !in Join(elements)
  {
    if elements != [] { JoinNoZero(elements[1..]); }
  }

  /** Normalizing twice is normalizing once. */
  lemma NormalizeIdempotent(s: string)
    ensures Normalize(Normalize(s)) == Normalize(s)
  {
    var path := DropSlash(CStr(s));
    CStrNoZero(s);
    SegmentsPlain(path, []);
    var elements := Segments(path, []);
    JoinNoZero(elements);
    CStrNoZero(Join(elements));
    JoinIsSlashTail(elements);
    assert DropSlash(Join(elements)) == JoinTail(elements);
    SegmentsOfJoin(elements, []);
    assert [] + elements == elements;
  }

  /** A normalized path starts with a slash and is the join of its segments; one
      of them is `..` exactly when the last segment of the original is: that one
      is not resolved. */
  lemma ParentSurvivesExactlyAtTheEnd(s: string)
    ensures var path := DropSlash(CStr(s));
            var elements := Segments(path, []);
            && Normalize(s) == Join(elements) && elements != []
            && (forall i :: 0 <= i < |elements| ==> NoSlash(elements[i]))
            && (".." in elements <==> LastSegment(path) == "..")
  {
    CStrNoZero(s);
    SegmentsPlain(DropSlash(CStr(s)), []);
  }

  /** It happens: the last `..` of this path is not resolved. */
  lemma ParentKept()
    ensures Normalize("/a/..") == "/a/.." && ".." in Segments(DropSlash(CStr("/a/..")), [])
  {
    hide Segments;
    hide CStr;
    hide Join;
    hide JoinTail;
    var elements := ["a", ".."];
    CStrNoZero("/a/..");
    JoinOfTwo();
    JoinIsSlashTail(elements);
    assert DropSlash("/a/..") == JoinTail(elements);
    assert Plain(elements);
    SegmentsOfJoin(elements, []);
    assert [] + elements == elements;
    assert elements[1] == "..";
  }

  lemma JoinOfTwo()
    ensures Join(["a", ".."]) == "/a/.."
  {
    assert ["a", ".."][1..] == [".."] && [".."][1..] == [];
    assert Join([".."]) == "/..";
  }

  // ---------------------------------------------------------------------------
  // What the path means

  /** The kept segments after a text that ends with a slash or is empty. */
  function Walk(text: string, elements: seq<string>): (r: seq<string>)
    decreases |text|
  {
    var slash := Find(text, "/", 0);
    if slash < 0 then elements else Walk(text[slash + 1..], Kept(elements, text[..slash]))
  }

  predicate EndsWithSlash(text: string)
  {
    text == [] || text[|text| - 1] == '/'
  }

  lemma FindInPrefix(text: string, rest: string)
    requires text != [] && EndsWithSlash(text)
    ensures var k := Find(text, "/", 0);
            && 0 <= k < |text| && Find(text + rest, "/", 0) == k
            && (text + rest)[..k] == text[..k] && (text + rest)[k + 1..] == text[k + 1..] + rest
            && EndsWithSlash(text[k + 1..])
  {
    FindSlash(text);
    var k := Find(text, "/", 0);
    assert text[|text| - 1] == '/';
    var a, b := text[..k], text[k + 1..] + rest;
    assert text + rest == a + "/" + b;
    FirstSlash(a, b);
  }

  lemma {:induction false} SegmentsAfter(text: string, rest: string, elements: seq<string>)
    requires EndsWithSlash(text)
    ensures Segments(text + rest, elements) == Segments(rest, Walk(text, elements))
    decreases |text|
  {
    hide Find;
    hide Kept;
    if text == [] {
      assert text + rest == rest;
      FindNothing();
    } else {
      FindInPrefix(text, rest);
      var k := Find(text, "/", 0);
      SegmentsAfter(text[k + 1..], rest, Kept(elements, text[..k]));
    }
  }

  lemma FindNothing()
    ensures Find([], "/", 0) == -1
  {
  }

  lemma OneSegment(x: string, rest: string, elements: seq<string>)
    requires NoSlash(x)
    ensures Segments(x + "/" + rest, elements) == Segments(rest, Kept(elements, x))
  {
    hide Find;
    FirstSlash(x, rest);
    var s := x + "/" + rest;
    assert s[..|x|] == x && s[|x| + 1..] == rest;
  }

  lemma ParentUndone(x: string, rest: string, elements: seq<string>)
    requires NoSlash(x) && x != ".."
    ensures Segments(x + "/" + ("../" + rest), elements) == Segments(rest, elements)
  {
    hide Segments;
    OneSegment(x, "../" + rest, elements);
    assert "../" + rest == ".." + "/" + rest;
    OneSegment("..", rest, elements + [x]);
  }

  lemma NormalizeSlash(path: string)
    requires '\0' !in path
    ensures Normalize("/" + path) == Join(Segments(path, []))
  {
    hide Segments;
    CStrNoZero("/" + path);
    assert DropSlash("/" + path) == path;
  }

  /** A directory followed by `..` is as if neither were there. */
  lemma ParentResolved(before: string, x: string, rest: string)
    requires EndsWithSlash(before) && NoSlash(x) && x != ".."
    requires '\0' !in before && '\0' !in x && '\0' !in rest
    ensures Normalize("/" + before + x + "/../" + rest) == Normalize("/" + before + rest)
  {
    hide Segments;
    hide Normalize;
    hide Walk;
    var tail := x + "/" + ("../" + rest);
    assert "/" + before + x + "/../" + rest == "/" + (before + tail);
    assert "/" + before + rest == "/" + (before + rest);
    NormalizeSlash(before + tail);
    NormalizeSlash(before + rest);
    SegmentsAfter(before, tail, []);
    SegmentsAfter(before, rest, []);
    ParentUndone(x, rest, Walk(before, []));
  }

  /** A `..` at the top has no effect. */
  lemma ParentOfRoot(rest: string)
    requires '\0' !in rest
    ensures Normalize("/../" + rest) == Normalize("/" + rest)
  {
    hide Segments;
    hide Normalize;
    var tail := ".." + "/" + rest;
    assert "/../" + rest == "/" + tail;
    NormalizeSlash(tail);
    NormalizeSlash(rest);
    OneSegment("..", rest, []);
  }

  /** A path with no `..` but as its last segment stays as it is. */
  lemma PlainStays(elements: seq<string>)
    requires Plain(elements)
    ensures Normalize("/" + JoinTail(elements)) == "/" + JoinTail(elements)
  {
    hide Segments;
    JoinIsSlashTail(elements);
    JoinNoZero(elements);
    CStrNoZero(Join(elements));
    assert DropSlash(Join(elements)) == JoinTail(elements);
    SegmentsOfJoin(elements, []);
    assert [] + elements == elements;
  }

  /** The slash at the front is optional, and a zero ends the path. */
  lemma FrontAndEnd(path: string, rest: string)
    requires '\0' !in path
    ensures path == [] || path[0] != '/' ==> Normalize(path) == Normalize("/" + path)
    ensures Normalize(path + "\0" + rest) == Normalize(path)
  {
    hide Segments;
    hide Join;
    CStrNoZero(path);
    CStrNoZero("/" + path);
    CStrEnds(path, rest);
    assert DropSlash("/" + path) == path;
  }

  lemma {:induction false} CStrEnds(path: string, rest: string)
    requires '\0' !in path
    ensures CStr(path + "\0" + rest) == path
  {
    var s := path + "\0" + rest;
    if path == [] {
      assert s[0] == '\0';
    } else {
      assert s[1..] == path[1..] + "\0" + rest;
      CStrEnds(path[1..], rest);
      assert path == [path[0]] + path[1..];
    }
  }

  /** The path of a target is normalized without its query, except for CONNECT. */
  lemma PathWithoutQuery(verb: string, path: string, query: string)
    requires '?' !in path
    ensures verb != "CONNECT" ==> PathOf(verb, path + "?" + query) == PathOf(verb, path) == Normalize(path)
    ensures PathOf("CONNECT", path + "?" + query) == path + "?" + query
  {
    hide Normalize;
    hide Find;
    var s := path + "?" + query;
    forall i | 0 <= i < |path| ensures !At(s, i, "?") && !At(path, i, "?") {
      assert s[i..i + 1] == [path[i]] && path[i..i + 1] == [path[i]];
    }
    assert s[|path|..|path| + 1] == "?";
    FindIs(s, "?", 0, |path|);
    FindNone(path, "?", 0);
    assert s[..|path|] == path;
  }
}
