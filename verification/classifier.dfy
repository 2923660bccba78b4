/**
  The Java declaration classifier: strip the comments, then test four
  keyword patterns in a fixed order; the first that matches decides.
*/
module Classifier {
  import opened Patterns
  import opened Comments

  /** The declaration kinds a Java file is sorted into. */
  datatype JavaFileType = Class | Interface | Enum | AbstractClass | Unknown

  /** `\binterface\s+\w+` */
  const InterfacePattern: seq<string> := ["interface"]
  /** `\benum\s+\w+` */
  const EnumPattern: seq<string> := ["enum"]
  /** `\babstract\s+class\s+\w+` */
  const AbstractClassPattern: seq<string> := ["abstract", "class"]
  /** `\bclass\s+\w+` */
  const ClassPattern: seq<string> := ["class"]

  lemma PatternsValid()
    ensures ValidPattern(InterfacePattern) && ValidPattern(EnumPattern)
    ensures ValidPattern(AbstractClassPattern) && ValidPattern(ClassPattern)
  {
  }

  /**
    The kind of a Java file's text. The result is exactly the first of
    interface, enum, abstract class and class whose pattern matches the
    comment-free text, and Unknown when none does.
  */
  function DetermineFileType(content: string): (kind: JavaFileType)
    ensures var t := StripComments(content);
      && (kind == Interface <==> Matches(t, InterfacePattern))
      && (kind == Enum <==> !Matches(t, InterfacePattern) && Matches(t, EnumPattern))
      && (kind == AbstractClass <==>
            !Matches(t, InterfacePattern) && !Matches(t, EnumPattern) && Matches(t, AbstractClassPattern))
      && (kind == Class <==>
            !Matches(t, InterfacePattern) && !Matches(t, EnumPattern) && !Matches(t, AbstractClassPattern)
            && Matches(t, ClassPattern))
      && (kind == Unknown <==>
            !Matches(t, InterfacePattern) && !Matches(t, EnumPattern) && !Matches(t, AbstractClassPattern)
            && !Matches(t, ClassPattern))
  {
    PatternsValid();
    var t := StripComments(content);
    if Test(t, InterfacePattern) then Interface
    else if Test(t, EnumPattern) then Enum
    else if Test(t, AbstractClassPattern) then AbstractClass
    else if Test(t, ClassPattern) then Class
    else Unknown
  }

  /**
    Every text the abstract-class pattern accepts is also accepted by the
    class pattern (at the `class` keyword), so it is the order of the tests
    alone that keeps such a file from being classified Class.
  */
  lemma AbstractMatchIsClassMatch(t: string)
    requires Matches(t, AbstractClassPattern)
    ensures Matches(t, ClassPattern)
  {
    PatternsValid();
    TailPatternMatches(t, AbstractClassPattern);
    assert AbstractClassPattern[1..] == ClassPattern;
  }

  /** A file with an abstract class declaration is never classified Class. */
  lemma AbstractNeverClass(content: string)
    requires Matches(StripComments(content), AbstractClassPattern)
    ensures DetermineFileType(content) != Class
    ensures DetermineFileType(content) in {Interface, Enum, AbstractClass}
    ensures Matches(StripComments(content), ClassPattern)
  {
    AbstractMatchIsClassMatch(StripComments(content));
  }

  /**
    A real `interface` declaration (the keyword standing alone, whitespace,
    then a word character) decides the kind as Interface, whatever follows,
    however many `class` declarations included.
  */
  lemma InterfaceDeclarationWins(before: string, space: char, first: char, after: string)
    requires NoSlash(before) && (before == [] || !IsWordChar(before[|before| - 1]))
    requires IsSpace(space) && IsWordChar(first)
    ensures DetermineFileType(before + ("interface" + [space, first]) + after) == Interface
  {
    var decl := "interface" + [space, first];
    assert MatchesAt(decl, 0, InterfacePattern) by {
      assert decl[0..9] == "interface";
      assert SpaceRun(decl, 9, 10) && MatchesAt(decl, 10, []);
      assert InterfacePattern[1..] == [];
      MatchesAtStep(decl, 0, InterfacePattern, 10);
    }
    assert NoSlash(decl) by {
      NoSlashConcat("interface", [space, first]);
    }
    ClassifiesAs(before, decl, after, InterfacePattern);
  }

  /**
    A real `abstract class` declaration gives AbstractClass whenever no
    interface or enum declaration is present.
  */
  lemma AbstractDeclarationWins(before: string, s1: char, s2: char, first: char, after: string)
    requires NoSlash(before) && (before == [] || !IsWordChar(before[|before| - 1]))
    requires IsSpace(s1) && IsSpace(s2) && IsWordChar(first)
    requires var t := StripComments(before + ("abstract" + [s1] + "class" + [s2, first]) + after);
      !Matches(t, InterfacePattern) && !Matches(t, EnumPattern)
    ensures DetermineFileType(before + ("abstract" + [s1] + "class" + [s2, first]) + after) == AbstractClass
  {
    AbstractDeclarationMatches(before, s1, s2, first, after);
  }

  lemma AbstractDeclarationMatches(before: string, s1: char, s2: char, first: char, after: string)
    requires NoSlash(before) && (before == [] || !IsWordChar(before[|before| - 1]))
    requires IsSpace(s1) && IsSpace(s2) && IsWordChar(first)
    ensures Matches(StripComments(before + ("abstract" + [s1] + "class" + [s2, first]) + after), AbstractClassPattern)
  {
    var decl := "abstract" + [s1] + "class" + [s2, first];
    AbstractDeclaration(s1, s2, first);
    assert NoSlash(decl) by {
      NoSlashConcat("abstract", [s1]);
      NoSlashConcat("abstract" + [s1], "class");
      NoSlashConcat("abstract" + [s1] + "class", [s2, first]);
    }
    ClassifiesAs(before, decl, after, AbstractClassPattern);
  }

  lemma AbstractDeclaration(s1: char, s2: char, first: char)
    requires IsSpace(s1) && IsSpace(s2) && IsWordChar(first)
    ensures MatchesAt("abstract" + [s1] + "class" + [s2, first], 0, AbstractClassPattern)
  {
    var decl := "abstract" + [s1] + "class" + [s2, first];
    assert decl[9..14] == "class";
    assert SpaceRun(decl, 14, 15) && MatchesAt(decl, 15, []);
    assert ["class"][1..] == [];
    MatchesAtStep(decl, 9, ["class"], 15);
    assert decl[0..8] == "abstract";
    assert SpaceRun(decl, 8, 9);
    assert AbstractClassPattern[1..] == ["class"];
    MatchesAtStep(decl, 0, AbstractClassPattern, 9);
  }

  /**
    A declaration `decl` without slashes, matched by `pat` from its first
    character and preceded by slash-free text ending in a non-word
    character, makes `pat` match the comment-free text.
  */
  lemma ClassifiesAs(before: string, decl: string, after: string, pat: seq<string>)
    requires NoSlash(before) && (before == [] || !IsWordChar(before[|before| - 1]))
    requires NoSlash(decl) && |decl| > 0 && IsWordChar(decl[0])
    requires MatchesAt(decl, 0, pat)
    ensures Matches(StripComments(before + decl + after), pat)
  {
    var prefix := before + decl;
    assert NoSlash(prefix) by {
      forall j | 0 <= j < |prefix| ensures prefix[j] != '/' {
        if j < |before| { assert prefix[j] == before[j]; } else { assert prefix[j] == decl[j - |before|]; }
      }
    }
    PlainPrefixKept(prefix, after);
    var t := StripComments(prefix + after);
    assert t == before + decl + StripComments(after);
    MatchesAtShift(decl, 0, pat, before, StripComments(after));
    assert t[|before|] == decl[0];
    assert Boundary(t, |before|);
  }

  /**
    A block comment, even one holding declarations or line breaks, has no
    effect on the kind: the text classifies as if the comment were absent.
  */
  lemma BlockCommentIgnored(before: string, comment: string, after: string)
    requires NoSlash(before) && NoClose(comment)
    ensures DetermineFileType(before + ("/*" + comment + "*/" + after)) == DetermineFileType(before + after)
  {
    PlainPrefixKept(before, "/*" + comment + "*/" + after);
    BlockCommentRemoved(comment, after);
    PlainPrefixKept(before, after);
  }

  /**
    A line comment has no effect on the kind: the text classifies as if the
    comment (up to the line terminator) were absent.
  */
  lemma LineCommentIgnored(before: string, comment: string, after: string)
    requires NoSlash(before) && SingleLine(comment)
    requires after == [] || IsLineTerminator(after[0])
    ensures DetermineFileType(before + ("//" + comment + after)) == DetermineFileType(before + after)
  {
    PlainPrefixKept(before, "//" + comment + after);
    LineCommentRemoved(comment, after);
    PlainPrefixKept(before, after);
  }

  /**
    A file that is one block comment is UNKNOWN, whatever declarations the
    comment holds.
  */
  lemma CommentOnlyIsUnknown(c: string)
    requires NoClose(c)
    ensures DetermineFileType("/*" + c + "*/") == Unknown
  {
    BlockCommentRemoved(c, []);
    assert "/*" + c + "*/" + [] == "/*" + c + "*/";
  }
}
