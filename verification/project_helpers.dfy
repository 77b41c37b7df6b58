/** Enum lookup by lower-cased member name (`glotter/projecthelpers.py`). */
module ProjectHelpers {
  import opened Text
  import opened Outcomes
  import opened Naming

  /** `members[i]` is the first member whose lower-cased name is `name`. */
  ghost predicate FirstMatch<E>(name: string, members: seq<E>, memberName: E -> string, i: int) {
    && 0 <= i < |members|
    && ToLower(memberName(members[i])) == name
    && forall j :: 0 <= j < i ==> ToLower(memberName(members[j])) != name
  }

  /** `enum_from_string`: the first member, in declaration order, whose lower-cased name
      equals `name`. The input itself is not normalised, so an input holding an
      upper-case letter matches nothing. */
  method EnumFromString<E>(name: string, members: seq<E>, memberName: E -> string) returns (r: Result<E>)
    ensures r.Err? <==> forall i :: 0 <= i < |members| ==> ToLower(memberName(members[i])) != name
    ensures r.Err? ==> r.error == KeyError(name)
    ensures r.Ok? ==> exists i :: FirstMatch(name, members, memberName, i) && members[i] == r.value
    ensures HasUpper(name) ==> r.Err?
  {
    var i := 0;
    while i < |members|
      invariant 0 <= i <= |members|
      invariant forall j :: 0 <= j < i ==> ToLower(memberName(members[j])) != name
    {
      if name == ToLower(memberName(members[i])) {
        LowerHasNoUpper(memberName(members[i]));
        return Ok(members[i]);
      }
      i := i + 1;
    }
    return Err(KeyError(name));
  }

  /** A string without upper-case letters is its own lower-casing. */
  lemma LowerOfLowerCase(t: string)
    requires forall i :: 0 <= i < |t| ==> !IsUpperChar(t[i])
    ensures ToLower(t) == t
  {
  }

  /** Every naming-scheme member name is lower-case already. */
  lemma NamingSchemeNamesAreLower(s: NamingScheme)
    ensures ToLower(NamingSchemeName(s)) == NamingSchemeName(s)
  {
    LowerOfLowerCase(NamingSchemeName(s));
  }

  /** Every acronym-scheme member name is lower-case already. */
  lemma AcronymSchemeNamesAreLower(s: AcronymScheme)
    ensures ToLower(AcronymSchemeName(s)) == AcronymSchemeName(s)
  {
    LowerOfLowerCase(AcronymSchemeName(s));
  }

  /** Over the naming schemes, the lookup `EnumFromString` performs agrees with
      `NamingScheme[name]`: a name has a first match exactly when it is a member's
      name, and that match is the member the exact lookup returns. */
  lemma NamingSchemeLookupsAgree(name: string)
    ensures (exists i :: FirstMatch(name, NamingSchemes, NamingSchemeName, i)) <==> ParseNamingScheme(name).Ok?
    ensures forall i :: FirstMatch(name, NamingSchemes, NamingSchemeName, i) ==>
      ParseNamingScheme(name) == Ok(NamingSchemes[i])
  {
    forall s: NamingScheme ensures ToLower(NamingSchemeName(s)) == NamingSchemeName(s) {
      NamingSchemeNamesAreLower(s);
    }
    if ParseNamingScheme(name).Ok? {
      var s := ParseNamingScheme(name).value;
      var i := match s case Hyphen => 0 case Underscore => 1 case Camel => 2 case Pascal => 3 case Lower => 4;
      assert NamingSchemes[i] == s;
      assert FirstMatch(name, NamingSchemes, NamingSchemeName, i);
    }
  }

  /** Over the acronym schemes, each member's own name finds that member. */
  lemma AcronymSchemeLookupFindsMember(s: AcronymScheme)
    ensures exists i :: FirstMatch(AcronymSchemeName(s), AcronymSchemes, AcronymSchemeName, i) && AcronymSchemes[i] == s
  {
    forall t: AcronymScheme ensures ToLower(AcronymSchemeName(t)) == AcronymSchemeName(t) {
      AcronymSchemeNamesAreLower(t);
    }
    var i := match s case Lowercase => 0 case Uppercase => 1 case TwoLetterLimit => 2;
    assert AcronymSchemes[i] == s;
    assert FirstMatch(AcronymSchemeName(s), AcronymSchemes, AcronymSchemeName, i);
  }
}
