/** How the handler turns submitted code into a Java program it can compile:
    the class name is taken from the leftmost match of
    `public\s+class\s+(\w+)` (or is `Main`), the source and class files are
    named after it under /tmp, and code without a class declaration is
    wrapped in a generated `main` method. */
module Derivation {
  import opened Wrappers

  /** JavaScript's `\s`: the ECMAScript WhiteSpace characters (tab, vertical
      tab, form feed, zero-width no-break space and the Unicode Zs spaces)
      and LineTerminator characters (LF, CR, LS, PS). */
  predicate IsSpace(c: char) {
    || c == '\t' || c == '\n' || c == '\U{000B}' || c == '\U{000C}' || c == '\r'
    || c == ' ' || c == '\U{00A0}' || c == '\U{1680}' || ('\U{2000}' <= c <= '\U{200A}')
    || c == '\U{2028}' || c == '\U{2029}' || c == '\U{202F}' || c == '\U{205F}'
    || c == '\U{3000}' || c == '\U{FEFF}'
  }

  /** JavaScript's `\w` in a pattern without the `u` and `i` flags. */
  predicate IsWordChar(c: char) {
    ('A' <= c <= 'Z') || ('a' <= c <= 'z') || ('0' <= c <= '9') || c == '_'
  }

  predicate StartsAt(s: string, i: nat, w: string) {
    i + |w| <= |s| && s[i..i + |w|] == w
  }

  /** The end of the longest run of whitespace that starts at `i`: what a
      greedy `\s+` consumes. */
  function SpacesEnd(s: string, i: nat): (j: nat)
    requires i <= |s|
    ensures i <= j <= |s|
    ensures forall k | i <= k < j :: IsSpace(s[k])
    ensures j == |s| || !IsSpace(s[j])
    decreases |s| - i
  {
    if i < |s| && IsSpace(s[i]) then SpacesEnd(s, i + 1) else i
  }

  /** The end of the longest run of word characters that starts at `i`: what
      a greedy `\w+` consumes. */
  function WordEnd(s: string, i: nat): (j: nat)
    requires i <= |s|
    ensures i <= j <= |s|
    ensures forall k | i <= k < j :: IsWordChar(s[k])
    ensures j == |s| || !IsWordChar(s[j])
    decreases |s| - i
  {
    if i < |s| && IsWordChar(s[i]) then WordEnd(s, i + 1) else i
  }

  /** A run of whitespace is determined by where it starts. */
  lemma SpacesEndUnique(s: string, i: nat, j: nat)
    requires i <= j <= |s|
    requires forall k | i <= k < j :: IsSpace(s[k])
    requires j == |s| || !IsSpace(s[j])
    ensures SpacesEnd(s, i) == j
  {
  }

  /** A run of word characters is determined by where it starts. */
  lemma WordEndUnique(s: string, i: nat, j: nat)
    requires i <= j <= |s|
    requires forall k | i <= k < j :: IsWordChar(s[k])
    requires j == |s| || !IsWordChar(s[j])
    ensures WordEnd(s, i) == j
  {
  }

  /** The index just past `public\s+class\s+` when that literal part of the
      pattern matches at `i`: where the capture group begins. Backtracking
      into the greedy `\s+` never helps, because neither `c` nor a word
      character is whitespace. */
  function KeywordsEnd(s: string, i: nat): (r: Option<nat>)
    requires i <= |s|
    ensures r.Some? ==> i + 13 <= r.value <= |s|
  {
    if !StartsAt(s, i, "public") then None
    else
      var j := SpacesEnd(s, i + 6);
      if j == i + 6 || !StartsAt(s, j, "class") then None
      else
        var k := SpacesEnd(s, j + 5);
        if k == j + 5 then None else Some(k)
  }

  /** The capture of `public\s+class\s+(\w+)` anchored at `i`, if it matches
      there: the greedy run of word characters after the keywords. */
  function MatchAt(s: string, i: nat): (r: Option<string>)
    requires i <= |s|
  {
    match KeywordsEnd(s, i)
    case None => None
    case Some(k) =>
      var e := WordEnd(s, k);
      if e == k then None else Some(s[k..e])
  }

  /** `public\s+class\s+\w+` matches at `i` (no capture, one word character
      suffices): the pattern used by the has-class test. */
  function TestAt(s: string, i: nat): (r: bool)
    requires i <= |s|
  {
    match KeywordsEnd(s, i)
    case None => false
    case Some(k) => k < |s| && IsWordChar(s[k])
  }

  /** A match of the capturing pattern, as explicit positions: "public" at i,
      whitespace in [i+6, j), "class" at j, whitespace in [j+5, k), word
      characters in [k, e), and no word character at e. */
  ghost predicate MatchShape(s: string, i: nat, j: nat, k: nat, e: nat) {
    && StartsAt(s, i, "public")
    && i + 6 < j <= |s| && (forall m | i + 6 <= m < j :: IsSpace(s[m]))
    && StartsAt(s, j, "class")
    && j + 5 < k <= |s| && (forall m | j + 5 <= m < k :: IsSpace(s[m]))
    && k < e <= |s| && (forall m | k <= m < e :: IsWordChar(s[m]))
    && (e == |s| || !IsWordChar(s[e]))
  }

  /** Whenever MatchAt succeeds, the regular expression matches at `i` with
      the shape above and the returned name is its capture. */
  lemma MatchAtSound(s: string, i: nat)
    requires i <= |s| && MatchAt(s, i).Some?
    ensures exists j: nat, k: nat, e: nat :: MatchShape(s, i, j, k, e) && MatchAt(s, i).value == s[k..e]
  {
    var j := SpacesEnd(s, i + 6);
    var k := SpacesEnd(s, j + 5);
    var e := WordEnd(s, k);
    assert MatchShape(s, i, j, k, e);
  }

  /** Whenever the regular expression matches at `i`, in whatever way its
      greedy parts are split, MatchAt finds it with the same capture. */
  lemma MatchAtComplete(s: string, i: nat, j: nat, k: nat, e: nat)
    requires MatchShape(s, i, j, k, e)
    ensures MatchAt(s, i) == Some(s[k..e])
  {
    assert s[j] == 'c' by { assert s[j..j + 5][0] == s[j]; }
    SpacesEndUnique(s, i + 6, j);
    SpacesEndUnique(s, j + 5, k);
    WordEndUnique(s, k, e);
  }

  /** The two patterns agree position by position. */
  lemma TestAtIffMatchAt(s: string, i: nat)
    requires i <= |s|
    ensures TestAt(s, i) <==> MatchAt(s, i).Some?
  {
  }

  /** A match found by a left-to-right search: where it starts and what the
      group captured. */
  datatype Match = Match(index: nat, name: string)

  /** `String.prototype.match` with a non-global pattern, from position `from`
      on: the first position where the pattern matches, with its capture. */
  function Search(s: string, from: nat): (r: Option<Match>)
    requires from <= |s|
    ensures r.Some? ==> from <= r.value.index <= |s| && MatchAt(s, r.value.index) == Some(r.value.name)
    ensures r.Some? ==> forall i | from <= i < r.value.index :: MatchAt(s, i).None?
    ensures r.None? ==> forall i | from <= i <= |s| :: MatchAt(s, i).None?
    decreases |s| - from
  {
    match MatchAt(s, from)
    case Some(name) => Some(Match(from, name))
    case None => if from == |s| then None else Search(s, from + 1)
  }

  /** `RegExp.prototype.test` from position `from` on. */
  function TestFrom(s: string, from: nat): (r: bool)
    requires from <= |s|
    decreases |s| - from
  {
    TestAt(s, from) || (from < |s| && TestFrom(s, from + 1))
  }

  lemma {:induction false} TestFromIffSearch(s: string, from: nat)
    requires from <= |s|
    ensures TestFrom(s, from) <==> Search(s, from).Some?
    decreases |s| - from
  {
    TestAtIffMatchAt(s, from);
    if from < |s| {
      TestFromIffSearch(s, from + 1);
    }
  }

  /** `/public\s+class\s+\w+/.test(userCode)`. */
  function HasClassDefinition(s: string): (r: bool) {
    TestFrom(s, 0)
  }

  /** The has-class test succeeds exactly when the capturing match does, so
      the two separately written patterns never disagree. */
  lemma HasClassDefinitionIffMatch(s: string)
    ensures HasClassDefinition(s) <==> Search(s, 0).Some?
  {
    TestFromIffSearch(s, 0);
  }

  /** `classNameMatch ? classNameMatch[1] : 'Main'`. */
  function ClassName(s: string): (name: string)
    ensures |name| > 0 && forall c | c in name :: IsWordChar(c)
    ensures (forall i | 0 <= i <= |s| :: MatchAt(s, i).None?) ==> name == "Main"
  {
    match Search(s, 0)
    case Some(m) =>
      var k := KeywordsEnd(s, m.index).value;
      assert m.name == s[k..WordEnd(s, k)];
      m.name
    case None =>
      assert forall c | c in "Main" :: IsWordChar(c);
      "Main"
  }

  /** The name is the capture of the leftmost match, when there is one. */
  lemma ClassNameIsLeftmostCapture(s: string, i: nat)
    requires i <= |s| && MatchAt(s, i).Some?
    requires forall i' | 0 <= i' < i :: MatchAt(s, i').None?
    ensures ClassName(s) == MatchAt(s, i).value
  {
    var m := Search(s, 0).value;
    assert !(m.index < i);
    assert !(i < m.index);
  }

  function JavaFile(name: string): (p: string) {
    "/tmp/" + name + ".java"
  }

  function ClassFile(name: string): (p: string) {
    "/tmp/" + name + ".class"
  }

  /** The text the wrap branch puts between the class header and the
      user's code, and the text it puts after the code. */
  const MainSignature: string := "\n    public static void main(String[] args) {\n        "
  const Closing: string := "\n    }\n}"

  /** The template literal of the wrap branch. */
  function Wrap(name: string, code: string): (program: string) {
    "public class " + name + " {" + MainSignature + code + Closing
  }

  /** The class header of a generated program. */
  const MainClassHeader: string := "public class Main {"

  /** The wrapped text as three fixed pieces around the code. */
  lemma WrapMainConcat(code: string)
    ensures Wrap("Main", code) == MainClassHeader + MainSignature + code + Closing
  {
    assert "public class " + "Main" + " {" == MainClassHeader;
  }

  /** A generated program starts with the `Main` class header, and the
      user's code can be read back verbatim between the main-method header
      and the closing braces; so two different snippets never give the same
      program. */
  lemma {:induction false} WrapKeepsCode(code: string, other: string)
    ensures MainClassHeader <= Wrap("Main", code)
    ensures |Wrap("Main", code)| == |MainClassHeader| + |MainSignature| + |code| + |Closing|
    ensures Wrap("Main", code)[|MainClassHeader| + |MainSignature|..|Wrap("Main", code)| - |Closing|] == code
    ensures Wrap("Main", code) == Wrap("Main", other) ==> code == other
  {
    WrapMainConcat(code);
    WrapMainConcat(other);
    var w, h, m := Wrap("Main", code), MainClassHeader, MainSignature;
    assert w == h + (m + code + Closing);
    assert w[..|h|] == h;
    assert w[|h| + |m|..|w| - |Closing|] == code;
    var w' := Wrap("Main", other);
    assert w'[|h| + |m|..|w'| - |Closing|] == other;
  }

  /** Everything the handler derives from the user's code before it writes
      the source file. */
  datatype Derivation = Derivation(className: string, filePath: string, classFile: string, fullCode: string)

  function Derive(userCode: string): (d: Derivation)
    ensures d.filePath == "/tmp/" + d.className + ".java"
    ensures d.classFile == "/tmp/" + d.className + ".class"
    ensures HasClassDefinition(userCode) ==>
              && d.fullCode == userCode
              && Search(userCode, 0).Some? && d.className == Search(userCode, 0).value.name
    ensures !HasClassDefinition(userCode) ==>
              && d.className == "Main"
              && d.fullCode == MainClassHeader + MainSignature + userCode + Closing
  {
    HasClassDefinitionIffMatch(userCode);
    WrapMainConcat(userCode);
    var className := ClassName(userCode);
    var fullCode := if HasClassDefinition(userCode) then userCode else Wrap(className, userCode);
    Derivation(className, JavaFile(className), ClassFile(className), fullCode)
  }

  /** A generated program's leftmost class declaration is its own header: the
      match starts at index 0 and the capture stops at the space before `{`. */
  lemma {:induction false} WrappedDeclaresMain(code: string)
    ensures Search(Wrap("Main", code), 0) == Some(Match(0, "Main"))
  {
    var full := Wrap("Main", code);
    WrapMainConcat(code);
    var h := MainClassHeader;
    assert full[..19] == h;
    assert StartsAt(full, 0, "public") by { assert full[..6] == h[..6]; }
    assert StartsAt(full, 7, "class") by { assert full[7..12] == h[7..12]; }
    assert full[6] == h[6] && full[12] == h[12] && full[17] == h[17];
    assert full[13..17] == h[13..17] == "Main";
    assert MatchShape(full, 0, 7, 13, 17);
    MatchAtComplete(full, 0, 7, 13, 17);
  }

  /** Deriving again from the derived program changes nothing: the same class
      name, the same paths and the same source. */
  lemma DeriveIdempotent(userCode: string)
    ensures Derive(Derive(userCode).fullCode) == Derive(userCode)
  {
    var d := Derive(userCode);
    if !HasClassDefinition(userCode) {
      WrappedDeclaresMain(userCode);
      HasClassDefinitionIffMatch(d.fullCode);
    }
  }

  /** The program that is compiled always declares, as its leftmost public
      class, the class that `java` is then asked to run. */
  lemma DerivedProgramDeclaresItsClass(userCode: string)
    ensures HasClassDefinition(Derive(userCode).fullCode)
    ensures ClassName(Derive(userCode).fullCode) == Derive(userCode).className
  {
    var d := Derive(userCode);
    DeriveIdempotent(userCode);
    if !HasClassDefinition(userCode) {
      WrappedDeclaresMain(userCode);
      HasClassDefinitionIffMatch(d.fullCode);
    }
  }

  /** A path names its class: the stem between "/tmp/" and the extension
      is the class name, so two names give the same path only when equal. */
  lemma PathsDetermineName(a: string, b: string)
    ensures JavaFile(a) == JavaFile(b) <==> a == b
    ensures ClassFile(a) == ClassFile(b) <==> a == b
    ensures JavaFile(a) != ClassFile(b)
  {
    var pa, pb, ca, cb := JavaFile(a), JavaFile(b), ClassFile(a), ClassFile(b);
    assert pa[5..|pa| - 5] == a && pb[5..|pb| - 5] == b;
    assert ca[5..|ca| - 6] == a && cb[5..|cb| - 6] == b;
    assert pa[|pa| - 1] == 'a' && cb[|cb| - 1] == 's';
  }

  /** A name made of word characters keeps both paths directly in /tmp. */
  lemma PathsStayInTmp(name: string)
    requires forall c | c in name :: IsWordChar(c)
    ensures forall m | 5 <= m < |JavaFile(name)| :: JavaFile(name)[m] != '/'
    ensures forall m | 5 <= m < |ClassFile(name)| :: ClassFile(name)[m] != '/'
  {
    var p, c := JavaFile(name), ClassFile(name);
    forall m | 5 <= m < |p| ensures p[m] != '/' {
      if m < 5 + |name| {
        assert p[m] == name[m - 5] && name[m - 5] in name;
      } else {
        assert p[m] in ".java";
      }
    }
    forall m | 5 <= m < |c| ensures c[m] != '/' {
      if m < 5 + |name| {
        assert c[m] == name[m - 5] && name[m - 5] in name;
      } else {
        assert c[m] in ".class";
      }
    }
  }

  /** The source and class files of a derivation share one stem, are
      distinct, lie directly in /tmp, and two derivations collide on a path
      exactly when they infer the same class name. */
  lemma PathsFollowClassName(a: string, b: string)
    ensures Derive(a).filePath != Derive(a).classFile
    ensures forall m | 5 <= m < |Derive(a).filePath| :: Derive(a).filePath[m] != '/'
    ensures forall m | 5 <= m < |Derive(a).classFile| :: Derive(a).classFile[m] != '/'
    ensures Derive(a).filePath == Derive(b).filePath <==> Derive(a).className == Derive(b).className
    ensures Derive(a).classFile == Derive(b).classFile <==> Derive(a).className == Derive(b).className
  {
    var da, db := Derive(a), Derive(b);
    assert da.filePath == JavaFile(da.className) && da.classFile == ClassFile(da.className);
    assert db.filePath == JavaFile(db.className) && db.classFile == ClassFile(db.className);
    PathsDetermineName(da.className, db.className);
    PathsDetermineName(da.className, da.className);
    PathsStayInTmp(da.className);
  }
}
