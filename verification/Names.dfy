/** Package-name and version validation, and the errors of the package handlers. */
module Names {
  import opened Wrappers
  import opened Text

  datatype NameFault = Length | Start | Character(c: char)

  datatype PackageError =
    | BadName(fault: NameFault)
    | BadVersion
    | PayloadTooLarge(max: nat)
    | MissingFile
    | Conflict
    | NotFound
    | Forbidden
    | Internal

  predicate Lower(c: char) { 'a' <= c <= 'z' }

  predicate NameChar(c: char) {
    Lower(c) || '0' <= c <= '9' || c == '_' || c == '-'
  }

  const LETTERS: set<char> := {
    'a', 'b', 'c', 'd', 'e', 'f', 'g', 'h', 'i', 'j', 'k', 'l', 'm',
    'n', 'o', 'p', 'q', 'r', 's', 't', 'u', 'v', 'w', 'x', 'y', 'z' }
  const DIGITS: set<char> := { '0', '1', '2', '3', '4', '5', '6', '7', '8', '9' }

  /** The two character sets of the pattern, written out. */
  lemma NameCharacters(c: char)
    ensures Lower(c) <==> c in LETTERS
    ensures NameChar(c) <==> c in LETTERS || c in DIGITS || c in {'_', '-'}
  {}

  /** The pattern `^[a-z][a-z0-9_-]{0,63}$` over characters. */
  predicate IsPackageName(s: string) {
    && 1 <= |s| <= 64
    && Lower(s[0])
    && forall i :: 1 <= i < |s| ==> NameChar(s[i])
  }

  function BadCharacter(s: string): (c: Option<char>)
    ensures c.None? <==> forall i :: 0 <= i < |s| ==> NameChar(s[i])
    ensures c.Some? ==> exists i :: 0 <= i < |s| && s[i] == c.value && !NameChar(c.value)
                                    && forall j :: 0 <= j < i ==> NameChar(s[j])
  {
    if s == [] then None
    else if !NameChar(s[0]) then Some(s[0])
    else
      var rest := BadCharacter(s[1..]);
      assert forall j :: 0 < j < |s| ==> s[j] == s[1..][j - 1];
      assert rest.Some? ==>
          exists i :: 0 <= i < |s| && s[i] == rest.value && !NameChar(rest.value) && forall j :: 0 <= j < i ==> NameChar(s[j]) by {
        if rest.Some? {
          var i :| 0 <= i < |s| - 1 && s[1..][i] == rest.value && !NameChar(rest.value)
                   && forall j :: 0 <= j < i ==> NameChar(s[1..][j]);
          assert s[i + 1] == rest.value;
        }
      }
      rest
  }

  /** What `validate_name` answers; its length test counts bytes. */
  function NameError(name: string): Option<PackageError> {
    if name == "" || |Utf8(name)| > 64 then Some(BadName(Length))
    else if !Lower(name[0]) then Some(BadName(Start))
    else
      match BadCharacter(name[1..])
      case Some(c) => Some(BadName(Character(c)))
      case None => None
  }

  predicate FirstBadAt(name: string, i: int) {
    1 <= i < |name| && !NameChar(name[i]) && forall j :: 1 <= j < i ==> NameChar(name[j])
  }

  /** Which fault a name has: the byte length first, then the first character, then the first bad one after it. */
  ghost predicate NameFaultIs(name: string, fault: NameFault) {
    match fault
    case Length => name == "" || |Utf8(name)| > 64
    case Start => name != "" && |Utf8(name)| <= 64 && !Lower(name[0])
    case Character(c) =>
      && name != "" && |Utf8(name)| <= 64 && Lower(name[0])
      && exists i :: FirstBadAt(name, i) && name[i] == c
  }

  lemma OneFirstBad(name: string, i: int, j: int)
    requires FirstBadAt(name, i) && FirstBadAt(name, j)
    ensures i == j
  {}

  /** The scan of the tail finds the first bad character of the name. */
  lemma BadCharacterIsFirst(name: string, c: char)
    requires name != ""
    ensures BadCharacter(name[1..]) == Some(c) <==> exists i :: FirstBadAt(name, i) && name[i] == c
  {
    var tail := name[1..];
    var bad := BadCharacter(tail);
    if bad.Some? {
      var k :| 0 <= k < |tail| && tail[k] == bad.value && !NameChar(bad.value) && forall j :: 0 <= j < k ==> NameChar(tail[j]);
      assert FirstBadAt(name, k + 1) by {
        forall j | 1 <= j < k + 1 ensures NameChar(name[j]) { assert NameChar(tail[j - 1]); }
      }
      forall i | FirstBadAt(name, i) ensures i == k + 1 { OneFirstBad(name, i, k + 1); }
    } else {
      forall i | 1 <= i < |name| ensures NameChar(name[i]) { assert NameChar(tail[i - 1]); }
    }
  }

  /** A refused name is told exactly its own fault. */
  lemma NameErrorIff(name: string)
    ensures forall fault :: NameError(name) == Some(BadName(fault)) <==> NameFaultIs(name, fault)
    ensures NameError(name).Some? ==> NameError(name).value.BadName?
  {
    hide BadCharacter, FirstBadAt, Utf8;
    forall fault ensures NameError(name) == Some(BadName(fault)) <==> NameFaultIs(name, fault) {
      if fault.Character? && name != "" { BadCharacterIsFirst(name, fault.c); }
    }
  }

  /** Accepted names are exactly the pattern, although the code counts bytes and the pattern characters. */
  lemma AcceptedNames(name: string)
    ensures NameError(name).None? <==> IsPackageName(name)
    ensures NameError(name).None? ==> |Utf8(name)| == |name|
  {
    Utf8LengthIsCharCount(name);
    if name != "" {
      assert forall i :: 1 <= i < |name| ==> name[i] == name[1..][i - 1];
      if NameError(name).None? {
        forall i | 0 <= i < |name| ensures name[i] as int < 0x80 && (i > 0 ==> NameChar(name[i])) {
          if i > 0 { assert NameChar(name[1..][i - 1]); }
        }
      }
      if IsPackageName(name) {
        forall i | 0 <= i < |name| ensures name[i] as int < 0x80 {
          assert i > 0 ==> NameChar(name[i]);
        }
        forall i | 0 <= i < |name| - 1 ensures NameChar(name[1..][i]) {
          assert NameChar(name[i + 1]);
        }
      }
    }
  }

  method ValidateName(name: string) returns (r: Option<PackageError>)
    ensures r == NameError(name)
    ensures r.None? <==> IsPackageName(name)
  {
    AcceptedNames(name);
    if name == "" || |Utf8(name)| > 64 {
      return Some(BadName(Length));
    }
    var first := name[0];
    if !Lower(first) {
      return Some(BadName(Start));
    }
    for i := 1 to |name|
      invariant BadCharacter(name[1..]) == BadCharacter(name[i..])
    {
      var c := name[i];
      if !(Lower(c) || '0' <= c <= '9' || c == '_' || c == '-') {
        return Some(BadName(Character(c)));
      }
      assert name[i..][1..] == name[i + 1..];
    }
    return None;
  }

  /** The Unicode White_Space property, which `char::is_whitespace` tests. */
  predicate Whitespace(c: char) {
    var n := c as int;
    || 9 <= n <= 13 || n == 0x20 || n == 0x85 || n == 0xA0 || n == 0x1680
    || 0x2000 <= n <= 0x200A || n == 0x2028 || n == 0x2029 || n == 0x202F || n == 0x205F || n == 0x3000
  }

  const WHITE_SPACE: set<char> := {
    '\U{0009}', '\U{000A}', '\U{000B}', '\U{000C}', '\U{000D}', '\U{0020}', '\U{0085}', '\U{00A0}', '\U{1680}',
    '\U{2000}', '\U{2001}', '\U{2002}', '\U{2003}', '\U{2004}', '\U{2005}', '\U{2006}', '\U{2007}', '\U{2008}',
    '\U{2009}', '\U{200A}', '\U{2028}', '\U{2029}', '\U{202F}', '\U{205F}', '\U{3000}' }

  /** The 25 characters of that property, written out. */
  lemma WhiteSpaceCharacters(c: char)
    ensures Whitespace(c) <==> c in WHITE_SPACE
  {}

  /** A version is a non-empty word that fits into one path segment. */
  predicate IsVersion(v: string) {
    v != "" && '/' !in v && forall i :: 0 <= i < |v| ==> !Whitespace(v[i])
  }

  function VersionError(v: string): (r: Option<PackageError>)
    ensures r == if IsVersion(v) then None else Some(BadVersion)
  {
    if v == "" then Some(BadVersion)
    else if '/' in v || exists i :: 0 <= i < |v| && Whitespace(v[i]) then Some(BadVersion)
    else None
  }

  lemma {:induction false} SlashSplits(s: string)
    requires '/' in s
    ensures |Split(s)| >= 2
  {
    if s[0] == '/' {
    } else {
      SlashSplits(s[1..]);
    }
  }

  /**
   * Under an accepted name, the accepted versions are exactly the non-empty words
   * for which the path `name/version` takes apart again into that name and version.
   */
  lemma AcceptedPairSplits(name: string, version: string)
    requires NameError(name).None?
    ensures VersionError(version).None? <==>
            && version != "" && (forall i :: 0 <= i < |version| ==> !Whitespace(version[i]))
            && Split(name + "/" + version) == [name, version]
  {
    AcceptedNames(name);
    assert '/' !in name by {
      forall i | 0 <= i < |name| ensures name[i] != '/' {
        assert i > 0 ==> NameChar(name[i]);
      }
    }
    SplitSegment(name, version);
    if '/' in version {
      SlashSplits(version);
      assert |Split(name + "/" + version)| >= 3;
    } else {
      SplitSegment(version, "");
      assert Split(name + "/" + version) == [name, version];
    }
  }
}
