/** The newer project implementation (`glotter/models/project.py`): with no policy given
    the acronym policy is `two_letter_limit`, which upper-cases a short acronym only in
    the camel and pascal schemes; it also renders a space-joined display name. */
module ModelsProject {
  import opened Text
  import opened Outcomes
  import opened Naming
  import LegacyProject

  /** `Project.__init__`: acronyms are stored upper-cased; a missing policy means
      `two_letter_limit`. */
  function New(words: seq<string>, requiresParameters: bool, acronyms: seq<string>,
               acronymScheme: Option<AcronymScheme>): (p: Project)
    ensures p.words == words && p.requiresParameters == requiresParameters
    ensures acronymScheme.None? ==> p.acronymScheme == TwoLetterLimit
    ensures acronymScheme.Some? ==> p.acronymScheme == acronymScheme.value
    ensures p.acronyms == UpperEach(acronyms)
  {
    Project(words, requiresParameters, UpperEach(acronyms),
            if acronymScheme.Some? then acronymScheme.value else TwoLetterLimit)
  }

  /** `_try_as_acronym`: only letter case changes, so an acronym stays one; a word that
      is not an acronym is returned as it is, `two_letter_limit` never touches a word of
      a hyphen or underscore name, and `lower` leaves no upper-case letter. */
  function TryAsAcronym(p: Project, word: string, naming: NamingScheme): (r: string)
    ensures ToLower(r) == ToLower(word) && ToUpper(r) == ToUpper(word)
    ensures IsAcronym(p, r) <==> IsAcronym(p, word)
    ensures !IsAcronym(p, word) ==> r == word
    ensures p.acronymScheme == TwoLetterLimit && naming !in {Camel, Pascal} ==> r == word
    ensures IsAcronym(p, word) && p.acronymScheme == Lowercase ==> !HasUpper(r)
  {
    LowerOfCaseChanges(word);
    UpperOfCaseChanges(word);
    LowerHasNoUpper(word);
    if IsAcronym(p, word) then
      match p.acronymScheme
      case Uppercase => ToUpper(word)
      case Lowercase => ToLower(word)
      case TwoLetterLimit =>
        if |word| <= 2 && naming in {Camel, Pascal} then ToUpper(word) else word
    else word
  }

  function Cased(p: Project): Casing {
    (w, s) => TryAsAcronym(p, w, s)
  }

  /** `get_project_name_by_scheme` */
  function NameByScheme(p: Project, naming: NamingScheme): (r: Result<string>)
    ensures r.Err? <==> |p.words| == 0
  {
    Naming.NameByScheme(p.words, naming, Cased(p))
  }

  /** `display_name`: the words joined by single spaces, up to letter case. */
  function DisplayName(p: Project): (r: string)
    ensures ToLower(r) == Join(" ", LowerEach(p.words))
  {
    CasingKeepsLetters(p);
    AsDisplayCaseOnly(p.words, Cased(p));
    AsDisplay(p.words, Cased(p))
  }

  /** Acronym casing never changes more than letter case. */
  lemma CasingKeepsLetters(p: Project)
    ensures KeepsLetters(Cased(p))
  {
    forall w, s ensures ToLower(Cased(p)(w, s)) == ToLower(w) {
      LowerOfCaseChanges(w);
    }
  }

  /** Every name is its scheme's reference spelling up to letter case. */
  lemma NameCaseOnly(p: Project, naming: NamingScheme)
    requires |p.words| > 0
    ensures NameByScheme(p, naming).Ok?
    ensures ToLower(NameByScheme(p, naming).value) == Spelling(p.words, naming)
  {
    CasingKeepsLetters(p);
    Naming.NameCaseOnly(p.words, naming, Cased(p));
  }

  /** An acronym given in any case matches a word in any case. */
  lemma AcronymsMatchIgnoringCase(words: seq<string>, acronyms: seq<string>, policy: Option<AcronymScheme>, word: string)
    ensures IsAcronym(New(words, false, acronyms, policy), word)
        <==> exists a :: a in acronyms && ToUpper(a) == ToUpper(word)
  {
    AcronymMatchIgnoresCase(acronyms, word);
  }

  /** Under `two_letter_limit` the hyphen and underscore names are the words joined
      verbatim, and the display name is the title-cased words: acronyms are only
      upper-cased in camel and pascal names. */
  lemma TwoLetterLimitKeepsSeparatedWords(p: Project)
    requires |p.words| > 0
    requires p.acronymScheme == TwoLetterLimit
    ensures NameByScheme(p, Hyphen) == Ok(Join("-", p.words))
    ensures NameByScheme(p, Underscore) == Ok(Join("_", p.words))
    ensures DisplayName(p) == Join(" ", TitleEach(p.words))
  {
    assert Verbatim(Cased(p), Hyphen) && Verbatim(Cased(p), Underscore);
    VerbatimSeparated(p.words, Cased(p));
  }

  /** Without acronyms every scheme renders the words with its plain casing. */
  lemma NoAcronymsArePlain(p: Project)
    requires |p.words| > 0
    requires p.acronyms == []
    ensures NameByScheme(p, Hyphen) == Ok(Join("-", p.words))
    ensures NameByScheme(p, Underscore) == Ok(Join("_", p.words))
    ensures NameByScheme(p, Pascal) == Ok(Concat(TitleEach(p.words)))
    ensures NameByScheme(p, Camel) == Ok(ToLower(p.words[0]) + Concat(TitleEach(p.words[1..])))
    ensures NameByScheme(p, Lower) == Ok(Concat(LowerEach(p.words)))
    ensures DisplayName(p) == Join(" ", TitleEach(p.words))
  {
    assert forall n :: Verbatim(Cased(p), n);
    VerbatimSeparated(p.words, Cased(p));
    VerbatimWordCased(p.words, Cased(p));
  }

  /** The camel name is the lower-cased first word followed by the pascal name of the
      remaining words. */
  lemma CamelIsLowerHeadThenPascal(p: Project)
    requires |p.words| > 0
    ensures NameByScheme(p, Camel).value == ToLower(p.words[0]) + AsPascal(p.words[1..], Cased(p))
  {
    Naming.CamelIsLowerHeadThenPascal(p.words, Cased(p));
  }

  /** Under `upper` and `lower` an acronym is cased alike in every scheme; a word that is
      no acronym is never changed. */
  lemma CasingIgnoresSchemeOutsideTwoLetterLimit(p: Project, w: string, s1: NamingScheme, s2: NamingScheme)
    ensures p.acronymScheme != TwoLetterLimit ==> Cased(p)(w, s1) == Cased(p)(w, s2)
    ensures p.acronymScheme == Uppercase && IsAcronym(p, w) ==> Cased(p)(w, s1) == ToUpper(w)
    ensures p.acronymScheme == Lowercase && IsAcronym(p, w) ==> Cased(p)(w, s1) == ToLower(w)
    ensures !IsAcronym(p, w) ==> Cased(p)(w, s1) == w
  {
  }

  /** The lower name depends on the words only: acronyms and policy play no part. */
  lemma LowerIgnoresAcronyms(p: Project, q: Project)
    requires p.words == q.words
    ensures NameByScheme(p, Lower) == NameByScheme(q, Lower)
    ensures |p.words| > 0 ==> NameByScheme(p, Lower) == Ok(Concat(LowerEach(p.words)))
  {
  }

  /** The two implementations case a word alike except under `two_letter_limit` in the
      hyphen and underscore schemes. */
  lemma CasingAgreesWithLegacy(p: Project, naming: NamingScheme, w: string)
    requires p.acronymScheme != TwoLetterLimit || naming in {Camel, Pascal}
    ensures Cased(p)(w, naming) == LegacyProject.Cased(p)(w, naming)
  {
  }

  /** The two implementations name a project alike except under `two_letter_limit` in
      the hyphen and underscore schemes. */
  lemma AgreesWithLegacy(p: Project, naming: NamingScheme)
    requires p.acronymScheme != TwoLetterLimit || naming in {Camel, Pascal, Lower}
    ensures NameByScheme(p, naming) == LegacyProject.NameByScheme(p, naming)
  {
    var a, b := Cased(p), LegacyProject.Cased(p);
    if |p.words| > 0 && naming != Lower {
      var ws := if naming == Camel then p.words[1..] else p.words;
      forall i | 0 <= i < |ws|
        ensures CasedEach(ws, naming, a)[i] == CasedEach(ws, naming, b)[i]
        ensures TitledCased(ws, naming, a)[i] == TitledCased(ws, naming, b)[i]
      {
        CasingAgreesWithLegacy(p, naming, ws[i]);
        CasingAgreesWithLegacy(p, naming, ToTitle(ws[i]));
      }
      assert CasedEach(ws, naming, a) == CasedEach(ws, naming, b);
      assert TitledCased(ws, naming, a) == TitledCased(ws, naming, b);
    }
  }

  /** The `file io` project under the default policy: the short acronym is upper-cased
      in camel and pascal names only. */
  lemma FileIoRow()
    ensures var p := New(["file", "io"], false, ["io"], None);
      && NameByScheme(p, Hyphen) == Ok("file-io")
      && NameByScheme(p, Pascal) == Ok("FileIO")
      && NameByScheme(p, Camel) == Ok("fileIO")
  {
    var p := New(["file", "io"], false, ["io"], None);
    FileIoFacts();
    assert NameByScheme(p, Hyphen) == Ok("file-io") by {
      TwoLetterLimitKeepsSeparatedWords(p);
      assert Join("-", ["file", "io"]) == "file-io";
    }
    assert NameByScheme(p, Pascal) == Ok("FileIO") by {
      var pascal := TitledCased(p.words, Pascal, Cased(p));
      assert pascal[0] == "File" && pascal[1] == "IO";
      assert pascal == ["File", "IO"];
      assert Concat(["File", "IO"]) == "FileIO";
    }
    assert NameByScheme(p, Camel) == Ok("fileIO") by {
      assert p.words[0] == "file" && p.words[1..] == ["io"];
      var camel := TitledCased(p.words[1..], Camel, Cased(p));
      assert camel[0] == "IO";
      assert camel == ["IO"];
      assert Concat(["IO"]) == "IO";
      assert AsCamel(p.words, Cased(p)) == "file" + "IO";
      assert "file" + "IO" == "fileIO";
    }
  }

  /** The same project in the older implementation: `two_letter_limit` upper-cases the
      acronym in the hyphen name too. */
  lemma FileIoRowLegacy()
    ensures LegacyProject.NameByScheme(New(["file", "io"], false, ["io"], None), Hyphen) == Ok("file-IO")
  {
    var p := New(["file", "io"], false, ["io"], None);
    FileIoFacts();
    var legacy := CasedEach(p.words, Hyphen, LegacyProject.Cased(p));
    assert legacy[0] == "file" && legacy[1] == "IO";
    assert legacy == ["file", "IO"];
    assert Join("-", ["file", "IO"]) == "file-IO";
  }

  lemma FileIoFacts()
    ensures var p := New(["file", "io"], false, ["io"], None);
      && ToUpper("io") == "IO" && ToUpper("Io") == "IO" && ToLower("file") == "file"
      && ToTitle("file") == "File" && ToTitle("io") == "Io"
      && IsAcronym(p, "io") && IsAcronym(p, "Io") && !IsAcronym(p, "file") && !IsAcronym(p, "File")
  {
    var p := New(["file", "io"], false, ["io"], None);
    assert ToUpper("io")[0] == 'I' && ToUpper("io")[1] == 'O';
    assert ToUpper("Io")[0] == 'I' && ToUpper("Io")[1] == 'O';
    assert ToUpper("io") == "IO" && ToUpper("Io") == "IO";
    assert ToUpper("file")[0] == 'F';
    assert ToUpper("File")[0] == 'F';
    assert ToLower("file")[0] == 'f' && ToLower("file")[1] == 'i' && ToLower("file")[2] == 'l' && ToLower("file")[3] == 'e';
    assert UpperEach(["io"])[0] == "IO";
    assert p.acronyms == ["IO"];
  }
}
