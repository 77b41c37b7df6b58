/** The naming vocabulary shared by both project implementations: the two enums, the
    project record, and the five renderers of a word list. Each renderer takes the
    implementation's per-word acronym casing as a parameter, because the two
    implementations differ only in that casing and in their default acronym policy. */
module Naming {
  import opened Text
  import opened Outcomes

  datatype NamingScheme = Hyphen | Underscore | Camel | Pascal | Lower

  datatype AcronymScheme = Lowercase | Uppercase | TwoLetterLimit

  /** The members of `NamingScheme` in declaration order. */
  const NamingSchemes: seq<NamingScheme> := [Hyphen, Underscore, Camel, Pascal, Lower]

  /** The members of `AcronymScheme` in declaration order. */
  const AcronymSchemes: seq<AcronymScheme> := [Lowercase, Uppercase, TwoLetterLimit]

  /** The Python member name of a naming scheme. */
  function NamingSchemeName(s: NamingScheme): string {
    match s
    case Hyphen => "hyphen"
    case Underscore => "underscore"
    case Camel => "camel"
    case Pascal => "pascal"
    case Lower => "lower"
  }

  /** The Python member name of an acronym scheme. */
  function AcronymSchemeName(s: AcronymScheme): string {
    match s
    case Lowercase => "lower"
    case Uppercase => "upper"
    case TwoLetterLimit => "two_letter_limit"
  }

  /** `NamingScheme[name]`: lookup by exact, case-sensitive member name. */
  function ParseNamingScheme(name: string): (r: Result<NamingScheme>)
    ensures r.Ok? ==> NamingSchemeName(r.value) == name
    ensures r.Err? ==> r.error == KeyError(name) && forall s :: NamingSchemeName(s) != name
  {
    if name == "hyphen" then Ok(Hyphen)
    else if name == "underscore" then Ok(Underscore)
    else if name == "camel" then Ok(Camel)
    else if name == "pascal" then Ok(Pascal)
    else if name == "lower" then Ok(Lower)
    else Err(KeyError(name))
  }

  /** The fields both `Project` classes hold; `acronyms` is the stored, upper-cased list. */
  datatype Project = Project(
    words: seq<string>,
    requiresParameters: bool,
    acronyms: seq<string>,
    acronymScheme: AcronymScheme)

  /** `Project.__eq__`: words, the parameter flag, the stored acronyms and the policy. */
  function ProjectEquals(a: Project, b: Project): (r: bool)
    ensures r <==> a == b
  {
    a.words == b.words && a.requiresParameters == b.requiresParameters
    && a.acronyms == b.acronyms && a.acronymScheme == b.acronymScheme
  }

  /** `_is_acronym`: the stored acronyms are upper-case, so the word is upper-cased
      before the membership test. */
  predicate IsAcronym(p: Project, word: string) {
    ToUpper(word) in p.acronyms
  }

  /** Storing the acronyms upper-cased makes membership case-insensitive on both sides. */
  lemma AcronymMatchIgnoresCase(acronyms: seq<string>, word: string)
    ensures ToUpper(word) in UpperEach(acronyms) <==> exists a :: a in acronyms && ToUpper(a) == ToUpper(word)
  {
    if ToUpper(word) in UpperEach(acronyms) {
      var i :| 0 <= i < |acronyms| && UpperEach(acronyms)[i] == ToUpper(word);
      assert acronyms[i] in acronyms;
    }
    if exists a :: a in acronyms && ToUpper(a) == ToUpper(word) {
      var a :| a in acronyms && ToUpper(a) == ToUpper(word);
      var i :| 0 <= i < |acronyms| && acronyms[i] == a;
      assert UpperEach(acronyms)[i] == ToUpper(word);
    }
  }

  /** A per-word acronym casing, given the word and the scheme being rendered. */
  type Casing = (string, NamingScheme) -> string

  function CasedEach(words: seq<string>, naming: NamingScheme, cased: Casing): (r: seq<string>)
    ensures |r| == |words|
  {
    seq(|words|, i requires 0 <= i < |words| => cased(words[i], naming))
  }

  function TitledCased(words: seq<string>, naming: NamingScheme, cased: Casing): (r: seq<string>)
    ensures |r| == |words|
  {
    seq(|words|, i requires 0 <= i < |words| => cased(ToTitle(words[i]), naming))
  }

  /** `_as_hyphen` */
  function AsHyphen(words: seq<string>, cased: Casing): string {
    Join("-", CasedEach(words, Hyphen, cased))
  }

  /** `_as_underscore` */
  function AsUnderscore(words: seq<string>, cased: Casing): string {
    Join("_", CasedEach(words, Underscore, cased))
  }

  /** `_as_camel`: defined only when there is a first word to index. */
  function AsCamel(words: seq<string>, cased: Casing): string
    requires |words| > 0
  {
    ToLower(words[0]) + Concat(TitledCased(words[1..], Camel, cased))
  }

  /** `_as_pascal` */
  function AsPascal(words: seq<string>, cased: Casing): string {
    Concat(TitledCased(words, Pascal, cased))
  }

  /** `_as_lower` */
  function AsLower(words: seq<string>): string {
    Concat(LowerEach(words))
  }

  /** `_as_display`: title-cased, acronym-cased under the underscore scheme, space-joined. */
  function AsDisplay(words: seq<string>, cased: Casing): string {
    Join(" ", TitledCased(words, Underscore, cased))
  }

  /** `get_project_name_by_scheme`: the five renderings are built before the scheme is
      looked up, so an empty word list fails with the camel rendering's IndexError
      whatever scheme is asked for. */
  function NameByScheme(words: seq<string>, naming: NamingScheme, cased: Casing): (r: Result<string>)
    ensures r.Err? <==> |words| == 0
    ensures r.Err? ==> r.error == IndexError
  {
    if |words| == 0 then Err(IndexError)
    else
      Ok(match naming
         case Hyphen => AsHyphen(words, cased)
         case Underscore => AsUnderscore(words, cased)
         case Camel => AsCamel(words, cased)
         case Pascal => AsPascal(words, cased)
         case Lower => AsLower(words))
  }

  /** Reference spelling of a scheme with letter case disregarded: the lower-cased words,
      joined by `-` or `_` for the separated schemes and by nothing otherwise. */
  function Spelling(words: seq<string>, naming: NamingScheme): string {
    match naming
    case Hyphen => Join("-", LowerEach(words))
    case Underscore => Join("_", LowerEach(words))
    case _ => Concat(LowerEach(words))
  }

  /** The casing changes letter case only. */
  ghost predicate KeepsLetters(cased: Casing) {
    forall w, s :: ToLower(cased(w, s)) == ToLower(w)
  }

  /** The casing leaves every word of the scheme untouched. */
  ghost predicate Verbatim(cased: Casing, naming: NamingScheme) {
    forall w :: cased(w, naming) == w
  }

  lemma LowerCasedEach(words: seq<string>, naming: NamingScheme, cased: Casing)
    requires KeepsLetters(cased)
    ensures LowerEach(CasedEach(words, naming, cased)) == LowerEach(words)
  {
  }

  lemma LowerTitledCased(words: seq<string>, naming: NamingScheme, cased: Casing)
    requires KeepsLetters(cased)
    ensures LowerEach(TitledCased(words, naming, cased)) == LowerEach(words)
  {
    forall i | 0 <= i < |words|
      ensures ToLower(cased(ToTitle(words[i]), naming)) == ToLower(words[i])
    {
      LowerOfCaseChanges(words[i]);
    }
  }

  /** `_as_hyphen` differs from the lower-cased words joined by `-` only in letter case. */
  lemma AsHyphenCaseOnly(words: seq<string>, cased: Casing)
    requires KeepsLetters(cased)
    ensures ToLower(AsHyphen(words, cased)) == Join("-", LowerEach(words))
  {
    LowerJoin("-", CasedEach(words, Hyphen, cased));
    LowerCasedEach(words, Hyphen, cased);
  }

  /** `_as_underscore` differs from the lower-cased words joined by `_` only in letter case. */
  lemma AsUnderscoreCaseOnly(words: seq<string>, cased: Casing)
    requires KeepsLetters(cased)
    ensures ToLower(AsUnderscore(words, cased)) == Join("_", LowerEach(words))
  {
    LowerJoin("_", CasedEach(words, Underscore, cased));
    LowerCasedEach(words, Underscore, cased);
  }

  /** `_as_camel` differs from the concatenated lower-cased words only in letter case,
      and its first word is lower-cased whatever the casing does. */
  lemma AsCamelCaseOnly(words: seq<string>, cased: Casing)
    requires |words| > 0
    requires KeepsLetters(cased)
    ensures ToLower(AsCamel(words, cased)) == Concat(LowerEach(words))
    ensures AsCamel(words, cased)[..|words[0]|] == ToLower(words[0])
  {
    var tail := TitledCased(words[1..], Camel, cased);
    LowerAppend(ToLower(words[0]), Concat(tail));
    LowerOfCaseChanges(words[0]);
    LowerConcat(tail);
    LowerTitledCased(words[1..], Camel, cased);
    assert LowerEach(words) == [ToLower(words[0])] + LowerEach(words[1..]);
  }

  /** `_as_pascal` differs from the concatenated lower-cased words only in letter case. */
  lemma AsPascalCaseOnly(words: seq<string>, cased: Casing)
    requires KeepsLetters(cased)
    ensures ToLower(AsPascal(words, cased)) == Concat(LowerEach(words))
  {
    LowerConcat(TitledCased(words, Pascal, cased));
    LowerTitledCased(words, Pascal, cased);
  }

  /** `_as_lower` has no upper-case letter, and lower-casing it changes nothing. */
  lemma AsLowerIsLowerCase(words: seq<string>)
    ensures ToLower(AsLower(words)) == AsLower(words)
    ensures !HasUpper(AsLower(words))
  {
    LowerConcat(LowerEach(words));
    forall i | 0 <= i < |words|
      ensures ToLower(ToLower(words[i])) == ToLower(words[i])
    {
      LowerOfCaseChanges(words[i]);
    }
    assert LowerEach(LowerEach(words)) == LowerEach(words);
    LowerHasNoUpper(AsLower(words));
  }

  /** `_as_display` differs from the lower-cased words joined by spaces only in letter case. */
  lemma AsDisplayCaseOnly(words: seq<string>, cased: Casing)
    requires KeepsLetters(cased)
    ensures ToLower(AsDisplay(words, cased)) == Join(" ", LowerEach(words))
  {
    LowerJoin(" ", TitledCased(words, Underscore, cased));
    LowerTitledCased(words, Underscore, cased);
  }

  /** Whatever the acronyms and the policy, a name differs from the scheme's reference
      spelling only in letter case. */
  lemma {:induction false} NameCaseOnly(words: seq<string>, naming: NamingScheme, cased: Casing)
    requires |words| > 0
    requires KeepsLetters(cased)
    ensures NameByScheme(words, naming, cased).Ok?
    ensures ToLower(NameByScheme(words, naming, cased).value) == Spelling(words, naming)
  {
    match naming
    case Hyphen => AsHyphenCaseOnly(words, cased);
    case Underscore => AsUnderscoreCaseOnly(words, cased);
    case Camel => AsCamelCaseOnly(words, cased);
    case Pascal => AsPascalCaseOnly(words, cased);
    case Lower => AsLowerIsLowerCase(words);
  }

  /** Upper-casing both words the same way, they are acronyms alike: the acronym test
      ignores the word's letter case. */
  lemma IsAcronymIgnoresCase(p: Project, a: string, b: string)
    requires ToUpper(a) == ToUpper(b)
    ensures IsAcronym(p, a) <==> IsAcronym(p, b)
    ensures p.acronyms == [] ==> !IsAcronym(p, a)
  {
  }

  /** A casing that leaves every hyphen or underscore word alone joins the words as
      given; one that leaves underscore words alone displays them title-cased. */
  lemma VerbatimSeparated(words: seq<string>, cased: Casing)
    requires |words| > 0
    ensures Verbatim(cased, Hyphen) ==> NameByScheme(words, Hyphen, cased) == Ok(Join("-", words))
    ensures Verbatim(cased, Underscore) ==> NameByScheme(words, Underscore, cased) == Ok(Join("_", words))
    ensures Verbatim(cased, Underscore) ==> AsDisplay(words, cased) == Join(" ", TitleEach(words))
  {
    if Verbatim(cased, Hyphen) {
      forall i | 0 <= i < |words| ensures CasedEach(words, Hyphen, cased)[i] == words[i] {
        assert cased(words[i], Hyphen) == words[i];
      }
      assert CasedEach(words, Hyphen, cased) == words;
    }
    if Verbatim(cased, Underscore) {
      forall i | 0 <= i < |words|
        ensures CasedEach(words, Underscore, cased)[i] == words[i]
        ensures TitledCased(words, Underscore, cased)[i] == TitleEach(words)[i]
      {
        assert cased(words[i], Underscore) == words[i];
        assert cased(ToTitle(words[i]), Underscore) == ToTitle(words[i]);
      }
      assert CasedEach(words, Underscore, cased) == words;
      assert TitledCased(words, Underscore, cased) == TitleEach(words);
    }
  }

  /** A casing that leaves every pascal (camel) word alone yields the title-cased words
      (after the lower-cased first word). */
  lemma VerbatimWordCased(words: seq<string>, cased: Casing)
    requires |words| > 0
    ensures Verbatim(cased, Pascal) ==> NameByScheme(words, Pascal, cased) == Ok(Concat(TitleEach(words)))
    ensures Verbatim(cased, Camel) ==>
      NameByScheme(words, Camel, cased) == Ok(ToLower(words[0]) + Concat(TitleEach(words[1..])))
  {
    if Verbatim(cased, Pascal) {
      forall i | 0 <= i < |words| ensures TitledCased(words, Pascal, cased)[i] == TitleEach(words)[i] {
        assert cased(ToTitle(words[i]), Pascal) == ToTitle(words[i]);
      }
      assert TitledCased(words, Pascal, cased) == TitleEach(words);
    }
    if Verbatim(cased, Camel) {
      var tail := words[1..];
      forall i | 0 <= i < |tail| ensures TitledCased(tail, Camel, cased)[i] == TitleEach(tail)[i] {
        assert cased(ToTitle(tail[i]), Camel) == ToTitle(tail[i]);
      }
      assert TitledCased(tail, Camel, cased) == TitleEach(tail);
    }
  }

  /** When camel and pascal case words alike, camel is the lower-cased first word
      followed by the pascal rendering of the rest. */
  lemma CamelIsLowerHeadThenPascal(words: seq<string>, cased: Casing)
    requires |words| > 0
    requires forall w :: cased(w, Camel) == cased(w, Pascal)
    ensures NameByScheme(words, Camel, cased).value == ToLower(words[0]) + AsPascal(words[1..], cased)
  {
    var tail := words[1..];
    forall i | 0 <= i < |tail|
      ensures TitledCased(tail, Camel, cased)[i] == TitledCased(tail, Pascal, cased)[i]
    {
      assert cased(ToTitle(tail[i]), Camel) == cased(ToTitle(tail[i]), Pascal);
    }
    assert TitledCased(tail, Camel, cased) == TitledCased(tail, Pascal, cased);
  }
}
