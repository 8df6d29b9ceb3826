/** The avatar initials shown in the page header for the signed-in user's e-mail. */
module Header {
  import opened Wrappers
  import opened Text

  const Fallback := "U"

  /**
   * `s.slice(0, 2)`: the first two UTF-16 code units. A character outside the Basic
   * Multilingual Plane fills both; one that would be cut in half is left out.
   */
  function FirstTwo(s: string): (r: string)
    ensures |r| <= 2 && IsPrefix(r, s) && Utf16Length(r) <= 2
    ensures s != [] ==> r != []
    ensures |r| == |s| || Utf16Length(r) + Utf16Units(s[|r|]) > 2
  {
    Utf16Prefix(s, 2)
  }

  /** For text in the Basic Multilingual Plane, the first two characters, or all of a shorter text. */
  lemma {:induction false} FirstTwoOfBmp(s: string)
    requires forall i :: 0 <= i < |s| ==> s[i] as int < 0x1_0000
    ensures FirstTwo(s) == if |s| < 2 then s else s[..2]
  {
    Utf16LengthOfBmp(FirstTwo(s));
  }

  /** `userEmail ? userEmail.split("@")[0].slice(0, 2).toUpperCase() : "U"`. */
  function Initials(userEmail: Option<string>): (r: string)
    ensures |r| <= 2
    ensures userEmail.None? || userEmail.value == "" ==> r == Fallback
    ensures userEmail.Some? && userEmail.value != "" ==>
      |r| == |FirstTwo(BeforeFirst(userEmail.value, '@'))|
      && forall i :: 0 <= i < |r| ==> r[i] == UpperChar(userEmail.value[i])
  {
    if userEmail.Some? && userEmail.value != "" then Upper(FirstTwo(BeforeFirst(userEmail.value, '@')))
    else Fallback
  }

  /** Initials are empty exactly for an e-mail that starts with '@'; they never show "U" for one. */
  lemma EmptyInitials(userEmail: Option<string>)
    ensures Initials(userEmail) == [] <==> userEmail.Some? && userEmail.value != [] && userEmail.value[0] == '@'
  {
    if userEmail.Some? && userEmail.value != [] && userEmail.value[0] != '@' {
      assert BeforeFirst(userEmail.value, '@') != [];
    }
  }

  /** Only the text before the first '@' matters: the domain never shows. */
  lemma {:induction false} OnlyLocalPartShows(local: string, domain1: string, domain2: string)
    requires '@' !in local
    ensures Initials(Some(local + "@" + domain1)) == Initials(Some(local + "@" + domain2))
  {
    BeforeFirstAt(local, domain1);
    BeforeFirstAt(local, domain2);
  }

  lemma {:induction false} BeforeFirstAt(local: string, domain: string)
    requires '@' !in local
    ensures BeforeFirst(local + "@" + domain, '@') == local
  {
    if local != [] {
      assert (local + "@" + domain)[1..] == local[1..] + "@" + domain;
      BeforeFirstAt(local[1..], domain);
    }
  }

  /** The initials hold no '@' and no ASCII lower-case letter. */
  lemma InitialsShape(userEmail: Option<string>)
    ensures '@' !in Initials(userEmail)
    ensures forall i :: 0 <= i < |Initials(userEmail)| ==> !('a' <= Initials(userEmail)[i] <= 'z')
  {
    if userEmail.Some? && userEmail.value != "" {
      var local := BeforeFirst(userEmail.value, '@');
      var r := Initials(userEmail);
      forall i | 0 <= i < |r|
        ensures r[i] != '@'
      {
        assert r[i] == UpperChar(local[i]);
      }
    }
  }

  /** For an e-mail with a local part, the initials are its first two characters, upper-cased. */
  lemma InitialsOfLocalPart(local: string, domain: string)
    requires '@' !in local
    ensures Initials(Some(local + "@" + domain)) == Upper(FirstTwo(local))
  {
    BeforeFirstAt(local, domain);
  }

  /** An e-mail starting with a character outside the Basic Multilingual Plane shows that character alone. */
  lemma AstralFirstCharacter(c: char, rest: string)
    requires c as int >= 0x1_0000
    ensures Initials(Some([c] + rest)) == [c]
  {
    var s := [c] + rest;
    assert s[0] == c;
    var local := BeforeFirst(s, '@');
    assert local != [] && local[0] == c;
    assert FirstTwo(local)[0] == c;
  }
}
