/**
 * The name editor of the TEA mode: an on-screen keyboard of the letters A to Z
 * appends to the child's name while it is shorter than ten characters, a delete key
 * drops the last character, a clear key empties the name, and the player may
 * continue once the name holds something other than whitespace.
 */
module RegisterScreen {
  import opened Constants

  const MaxNameLength := 10

  /** A key press of the letter keyboard: appends only below ten characters. */
  function Append(name: string, letter: char): (r: string)
    ensures name <= r
    ensures |r| <= if |name| < MaxNameLength then MaxNameLength else |name|
    ensures r != name <==> |name| < MaxNameLength
    ensures r != name ==> r[|name|..] == [letter]
  {
    if |name| < MaxNameLength then name + [letter] else name
  }

  /** `name.slice(0, -1)`: everything but the last character, and '' for ''. */
  function DeleteLast(name: string): (r: string)
    ensures |name| > 0 ==> r + [name[|name| - 1]] == name
    ensures |name| == 0 ==> r == ""
  {
    if |name| == 0 then "" else name[..|name| - 1]
  }

  /** Deleting right after a letter was typed gives back the name. */
  lemma AppendThenDelete(name: string, letter: char)
    requires |name| < MaxNameLength
    ensures DeleteLast(Append(name, letter)) == name
  {
  }

  /**
   * The characters `String.prototype.trim` removes: the ECMAScript WhiteSpace and
   * LineTerminator code points.
   */
  predicate IsJsWhitespace(c: char) {
    var u := c as int;
    || u == 0x09 || u == 0x0B || u == 0x0C || u == 0x20 || u == 0xA0 || u == 0xFEFF
    || u == 0x0A || u == 0x0D || u == 0x2028 || u == 0x2029
    || u == 0x1680 || (0x2000 <= u <= 0x200A) || u == 0x202F || u == 0x205F || u == 0x3000
  }

  function TrimStart(s: string): (r: string)
    ensures |r| <= |s| && r == s[|s| - |r|..]
    ensures r != "" ==> !IsJsWhitespace(r[0])
  {
    if |s| > 0 && IsJsWhitespace(s[0]) then TrimStart(s[1..]) else s
  }

  function TrimEnd(s: string): (r: string)
    ensures |r| <= |s| && r == s[..|r|]
    ensures r != "" ==> !IsJsWhitespace(r[|r| - 1])
  {
    if |s| > 0 && IsJsWhitespace(s[|s| - 1]) then TrimEnd(s[..|s| - 1]) else s
  }

  /** `name.trim()`: no longer than the name, and starting and ending with a visible character. */
  function Trim(s: string): (r: string)
    ensures |r| <= |s|
    ensures r != "" ==> !IsJsWhitespace(r[0]) && !IsJsWhitespace(r[|r| - 1])
  {
    var t := TrimStart(s);
    if t != "" then TrimEndKeepsFirst(t); TrimEnd(t) else TrimEnd(t)
  }

  /** Some character of `s` is not whitespace. */
  predicate HasVisible(s: string) {
    exists i :: 0 <= i < |s| && !IsJsWhitespace(s[i])
  }

  lemma {:induction false} TrimStartVisible(s: string)
    ensures TrimStart(s) != "" <==> HasVisible(s)
    ensures TrimStart(s) != "" ==> !IsJsWhitespace(TrimStart(s)[0])
  {
    if |s| > 0 && IsJsWhitespace(s[0]) {
      TrimStartVisible(s[1..]);
      VisibleTail(s);
    } else if |s| > 0 {
      assert !IsJsWhitespace(s[0]);
    }
  }

  /** A leading whitespace character does not decide whether the string has a visible one. */
  lemma VisibleTail(s: string)
    requires |s| > 0 && IsJsWhitespace(s[0])
    ensures HasVisible(s) <==> HasVisible(s[1..])
  {
    if HasVisible(s) {
      var i :| 0 <= i < |s| && !IsJsWhitespace(s[i]);
      assert s[1..][i - 1] == s[i];
    }
    if HasVisible(s[1..]) {
      var i :| 0 <= i < |s| - 1 && !IsJsWhitespace(s[1..][i]);
      assert s[i + 1] == s[1..][i];
    }
  }

  lemma {:induction false} TrimEndKeepsFirst(s: string)
    requires |s| > 0 && !IsJsWhitespace(s[0])
    ensures TrimEnd(s) != "" && TrimEnd(s)[0] == s[0]
  {
    if IsJsWhitespace(s[|s| - 1]) {
      TrimEndKeepsFirst(s[..|s| - 1]);
    }
  }

  /** `name.trim()` is non-empty exactly when the name has a character that is not whitespace. */
  lemma TrimNonEmpty(s: string)
    ensures Trim(s) != "" <==> HasVisible(s)
  {
    TrimStartVisible(s);
    if TrimStart(s) != "" {
      TrimEndKeepsFirst(TrimStart(s));
    }
  }

  /** A name typed on the keyboard: at most ten letters, all from `ALPHABET`. */
  ghost predicate Typed(name: string) {
    |name| <= MaxNameLength && forall i :: 0 <= i < |name| ==> name[i] in Alphabet
  }

  /** Every key of the screen keeps a typed name typed. */
  lemma KeysKeepTyped(name: string, k: nat)
    requires Typed(name) && k < |Alphabet|
    ensures Typed(Append(name, Alphabet[k]))
    ensures Typed(DeleteLast(name))
    ensures Typed("")
  {
  }

  /** No key of the letter keyboard types whitespace. */
  lemma LettersAreVisible(c: char)
    requires c in Alphabet
    ensures !IsJsWhitespace(c)
  {
    AlphabetIsAtoZ();
    var k :| 0 <= k < |Alphabet| && Alphabet[k] == c;
  }

  /** A typed name is visible exactly when it is not empty, since no letter is whitespace. */
  lemma TypedNameVisible(name: string)
    requires Typed(name)
    ensures Trim(name) != "" <==> name != ""
  {
    TrimNonEmpty(name);
    if name != "" {
      LettersAreVisible(name[0]);
    }
  }

  /** The parent's `name`, as this screen changes it. */
  class NameEditor {
    var name: string

    ghost predicate Valid()
      reads this
    {
      |name| <= MaxNameLength
    }

    constructor (initial: string)
      ensures name == initial
    {
      name := initial;
    }

    /** The key of letter `ALPHABET[k]`. */
    method PressLetter(k: nat)
      requires k < |Alphabet|
      modifies this
      ensures name == Append(old(name), Alphabet[k])
      ensures old(Valid()) ==> Valid()
    {
      if |name| < MaxNameLength {
        name := name + [Alphabet[k]];
      }
    }

    /** The delete key. */
    method Delete()
      modifies this
      ensures name == DeleteLast(old(name))
      ensures old(Valid()) ==> Valid()
    {
      if |name| > 0 {
        name := name[..|name| - 1];
      } else {
        name := "";
      }
    }

    /** The clear key. */
    method Clear()
      modifies this
      ensures name == "" && Valid()
    {
      name := "";
    }

    /** The continue button: whether `onNext` fires. */
    method Continue() returns (next: bool)
      ensures next <==> HasVisible(name)
    {
      TrimNonEmpty(name);
      next := Trim(name) != "";
    }
  }
}
