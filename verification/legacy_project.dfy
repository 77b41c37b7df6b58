/** The older project implementation (`glotter/project.py`): with no policy given the
    acronym policy is `upper`, and `two_letter_limit` upper-cases a short acronym in
    every scheme. */
module LegacyProject {
  import opened Text
  import opened Outcomes
  import opened Naming

  /** `Project.__init__`: acronyms are stored upper-cased; a missing policy means `upper`. */
  function New(words: seq<string>, requiresParameters: bool, acronyms: seq<string>,
               acronymScheme: Option<AcronymScheme>): (p: Project)
    ensures p.words == words && p.requiresParameters == requiresParameters
    ensures acronymScheme.None? ==> p.acronymScheme == Uppercase
    ensures acronymScheme.Some? ==> p.acronymScheme == acronymScheme.value
    ensures p.acronyms == UpperEach(acronyms)
  {
    Project(words, requiresParameters, UpperEach(acronyms),
            if acronymScheme.Some? then acronymScheme.value else Uppercase)
  }

  /** `_try_as_acronym`: the naming scheme is not consulted. Only letter case changes,
      so an acronym stays one; a word that is not an acronym is returned as it is, and
      under `upper` and `lower` an acronym is fully upper- or lower-cased. */
  function TryAsAcronym(p: Project, word: string): (r: string)
    ensures ToLower(r) == ToLower(word) && ToUpper(r) == ToUpper(word)
    ensures IsAcronym(p, r) <==> IsAcronym(p, word)
    ensures !IsAcronym(p, word) ==> r == word
    ensures IsAcronym(p, word) && p.acronymScheme == Uppercase ==> r == ToUpper(word)
    ensures IsAcronym(p, word) && p.acronymScheme == Lowercase ==> !HasUpper(r)
  {
    LowerOfCaseChanges(word);
    UpperOfCaseChanges(word);
    LowerHasNoUpper(word);
    if IsAcronym(p, word) then
      match p.acronymScheme
      case Uppercase => ToUpper(word)
      case Lowercase => ToLower(word)
      case TwoLetterLimit => if |word| <= 2 then ToUpper(word) else word
    else word
  }

  function Cased(p: Project): Casing {
    (w, s) => TryAsAcronym(p, w)
  }

  /** `get_project_name_by_scheme` */
  function NameByScheme(p: Project, naming: NamingScheme): (r: Result<string>)
    ensures r.Err? <==> |p.words| == 0
  {
    Naming.NameByScheme(p.words, naming, Cased(p))
  }

  /** Acronym casing never changes more than letter case, and leaves other words alone. */
  lemma CasingKeepsLetters(p: Project)
    ensures KeepsLetters(Cased(p))
    ensures forall w :: !IsAcronym(p, w) ==> Cased(p)(w, Hyphen) == w
  {
    forall w, s ensures ToLower(Cased(p)(w, s)) == ToLower(w) {
      LowerOfCaseChanges(w);
    }
  }

  /** Every name is its scheme's reference spelling up to letter case. */
  lemma NameCaseOnly(p: Project, naming: NamingScheme)
    requires |p.words| > 0
    ensures NameByScheme(p, naming).Ok?
    ensures ToLower(NameByScheme(p, naming).value) == Spelling(p.words, naming)
  {
    CasingKeepsLetters(p);
    Naming.NameCaseOnly(p.words, naming, Cased(p));
  }

  /** An acronym given in any case matches a word in any case. */
  lemma AcronymsMatchIgnoringCase(words: seq<string>, acronyms: seq<string>, policy: Option<AcronymScheme>, word: string)
    ensures IsAcronym(New(words, false, acronyms, policy), word)
        <==> exists a :: a in acronyms && ToUpper(a) == ToUpper(word)
  {
    AcronymMatchIgnoresCase(acronyms, word);
  }

  /** Without acronyms every scheme renders the words with its plain casing: the
      separated schemes join the words verbatim. */
  lemma NoAcronymsArePlain(p: Project)
    requires |p.words| > 0
    requires p.acronyms == []
    ensures NameByScheme(p, Hyphen) == Ok(Join("-", p.words))
    ensures NameByScheme(p, Underscore) == Ok(Join("_", p.words))
    ensures NameByScheme(p, Pascal) == Ok(Concat(TitleEach(p.words)))
    ensures NameByScheme(p, Camel) == Ok(ToLower(p.words[0]) + Concat(TitleEach(p.words[1..])))
    ensures NameByScheme(p, Lower) == Ok(Concat(LowerEach(p.words)))
  {
    assert forall n :: Verbatim(Cased(p), n);
    VerbatimSeparated(p.words, Cased(p));
    VerbatimWordCased(p.words, Cased(p));
  }

  /** Under `two_letter_limit` an acronym of at most two letters is upper-cased in every
      scheme, and a longer one is left as it is. */
  lemma TwoLetterLimitIgnoresScheme(p: Project, w: string, naming: NamingScheme)
    requires p.acronymScheme == TwoLetterLimit && IsAcronym(p, w)
    ensures |w| <= 2 ==> Cased(p)(w, naming) == ToUpper(w)
    ensures |w| > 2 ==> Cased(p)(w, naming) == w
  {
  }

  /** Rows of the unit-test table, default policy `upper`. */
  lemma SingleAcronymRow()
    ensures var p := New(["io"], false, ["IO"], None);
      && NameByScheme(p, Hyphen) == Ok("IO")
      && NameByScheme(p, Underscore) == Ok("IO")
      && NameByScheme(p, Camel) == Ok("io")
      && NameByScheme(p, Pascal) == Ok("IO")
      && NameByScheme(p, Lower) == Ok("io")
  {
    var p := New(["io"], false, ["IO"], None);
    assert ToUpper("IO")[0] == 'I' && ToUpper("IO")[1] == 'O';
    assert ToUpper("io")[0] == 'I' && ToUpper("io")[1] == 'O';
    assert ToUpper("Io")[0] == 'I' && ToUpper("Io")[1] == 'O';
    assert ToLower("io")[0] == 'i' && ToLower("io")[1] == 'o';
    assert ToUpper("IO") == "IO" && ToUpper("io") == "IO" && ToUpper("Io") == "IO" && ToLower("io") == "io";
    assert UpperEach(["IO"])[0] == "IO";
    assert p.acronyms == ["IO"];
    assert ToTitle("io") == "Io";
    assert IsAcronym(p, "io") && IsAcronym(p, "Io");
    assert CasedEach(p.words, Hyphen, Cased(p))[0] == "IO";
    assert CasedEach(p.words, Hyphen, Cased(p)) == ["IO"];
    assert CasedEach(p.words, Underscore, Cased(p))[0] == "IO";
    assert TitledCased(p.words, Pascal, Cased(p))[0] == "IO";
    assert LowerEach(p.words)[0] == "io";
    assert CasedEach(p.words, Underscore, Cased(p)) == ["IO"];
    assert TitledCased(p.words, Pascal, Cased(p)) == ["IO"];
    assert Concat(["IO"]) == "IO";
    assert Concat(["io"]) == "io";
    assert LowerEach(p.words) == ["io"];
    assert TitledCased(p.words[1..], Camel, Cased(p)) == [];
  }

  /** The row with the acronym in front, default policy `upper`: the acronym is
      upper-cased everywhere except at the head of the camel name. */
  lemma AcronymAtFrontRow()
    ensures var p := New(["io", "word"], false, ["IO"], None);
      && NameByScheme(p, Hyphen) == Ok("IO-word")
      && NameByScheme(p, Underscore) == Ok("IO_word")
      && NameByScheme(p, Camel) == Ok("ioWord")
      && NameByScheme(p, Pascal) == Ok("IOWord")
      && NameByScheme(p, Lower) == Ok("ioword")
  {
    var p := New(["io", "word"], false, ["IO"], None);
    AcronymAtFrontFacts();
    AcronymAtFrontSeparated();
    assert NameByScheme(p, Camel) == Ok("ioWord") by {
      assert p.words[0] == "io" && p.words[1..] == ["word"];
      var camel := TitledCased(p.words[1..], Camel, Cased(p));
      assert camel[0] == "Word";
      assert camel == ["Word"];
      assert Concat(["Word"]) == "Word";
      assert AsCamel(p.words, Cased(p)) == "io" + "Word";
      assert "io" + "Word" == "ioWord";
    }
    assert NameByScheme(p, Pascal) == Ok("IOWord") by {
      var pascal := TitledCased(p.words, Pascal, Cased(p));
      assert pascal[0] == "IO" && pascal[1] == "Word";
      assert pascal == ["IO", "Word"];
      assert Concat(["IO", "Word"]) == "IOWord";
    }
    assert NameByScheme(p, Lower) == Ok("ioword") by {
      assert LowerEach(p.words)[0] == "io" && LowerEach(p.words)[1] == "word";
      assert LowerEach(p.words) == ["io", "word"];
      assert Concat(["io", "word"]) == "ioword";
    }
  }

  lemma AcronymAtFrontSeparated()
    ensures var p := New(["io", "word"], false, ["IO"], None);
      && NameByScheme(p, Hyphen) == Ok("IO-word")
      && NameByScheme(p, Underscore) == Ok("IO_word")
  {
    var p := New(["io", "word"], false, ["IO"], None);
    AcronymAtFrontFacts();
    var cased := CasedEach(p.words, Hyphen, Cased(p));
    assert cased[0] == "IO" && cased[1] == "word";
    assert cased == ["IO", "word"];
    assert Join("-", ["IO", "word"]) == "IO-word";
    var cased2 := CasedEach(p.words, Underscore, Cased(p));
    assert cased2[0] == "IO" && cased2[1] == "word";
    assert cased2 == ["IO", "word"];
    assert Join("_", ["IO", "word"]) == "IO_word";
  }

  lemma AcronymAtFrontFacts()
    ensures var p := New(["io", "word"], false, ["IO"], None);
      && IsAcronym(p, "io") && IsAcronym(p, "Io") && !IsAcronym(p, "word") && !IsAcronym(p, "Word")
      && ToUpper("io") == "IO" && ToUpper("Io") == "IO"
      && ToTitle("io") == "Io" && ToTitle("word") == "Word"
      && ToLower("io") == "io" && ToLower("word") == "word"
  {
    var p := New(["io", "word"], false, ["IO"], None);
    assert ToUpper("IO")[0] == 'I' && ToUpper("IO")[1] == 'O';
    assert ToUpper("io")[0] == 'I' && ToUpper("io")[1] == 'O';
    assert ToUpper("Io")[0] == 'I' && ToUpper("Io")[1] == 'O';
    assert ToUpper("IO") == "IO" && ToUpper("io") == "IO" && ToUpper("Io") == "IO";
    assert ToUpper("word")[0] == 'W' && ToUpper("Word")[0] == 'W';
    assert UpperEach(["IO"])[0] == "IO";
    assert p.acronyms == ["IO"];
    assert ToLower("io")[0] == 'i' && ToLower("io")[1] == 'o';
    assert ToLower("word")[0] == 'w' && ToLower("word")[1] == 'o' && ToLower("word")[2] == 'r' && ToLower("word")[3] == 'd';
  }

  /** The row with one acronym given twice in lower case: each occurrence is
      upper-cased, except at the head of the camel name. */
  lemma SameAcronymTwiceRow()
    ensures var p := New(["io", "word", "io"], false, ["io"], None);
      && NameByScheme(p, Hyphen) == Ok("IO-word-IO")
      && NameByScheme(p, Underscore) == Ok("IO_word_IO")
      && NameByScheme(p, Camel) == Ok("ioWordIO")
      && NameByScheme(p, Pascal) == Ok("IOWordIO")
      && NameByScheme(p, Lower) == Ok("iowordio")
  {
    SameAcronymTwiceSeparated();
    SameAcronymTwiceJoined();
  }

  lemma SameAcronymTwiceSeparated()
    ensures var p := New(["io", "word", "io"], false, ["io"], None);
      && NameByScheme(p, Hyphen) == Ok("IO-word-IO")
      && NameByScheme(p, Underscore) == Ok("IO_word_IO")
  {
    var p := New(["io", "word", "io"], false, ["io"], None);
    RowWordFacts();
    assert p.acronyms == ["IO"];
    var hyphen := CasedEach(p.words, Hyphen, Cased(p));
    assert hyphen[0] == "IO" && hyphen[1] == "word" && hyphen[2] == "IO";
    assert hyphen == ["IO", "word", "IO"];
    assert Join("-", ["IO", "word", "IO"]) == "IO-word-IO";
    var underscore := CasedEach(p.words, Underscore, Cased(p));
    assert underscore[0] == "IO" && underscore[1] == "word" && underscore[2] == "IO";
    assert underscore == ["IO", "word", "IO"];
    assert Join("_", ["IO", "word", "IO"]) == "IO_word_IO";
  }

  lemma SameAcronymTwiceJoined()
    ensures var p := New(["io", "word", "io"], false, ["io"], None);
      && NameByScheme(p, Camel) == Ok("ioWordIO")
      && NameByScheme(p, Pascal) == Ok("IOWordIO")
      && NameByScheme(p, Lower) == Ok("iowordio")
  {
    var p := New(["io", "word", "io"], false, ["io"], None);
    RowWordFacts();
    assert p.acronyms == ["IO"];
    var pascal := TitledCased(p.words, Pascal, Cased(p));
    assert pascal[0] == "IO" && pascal[1] == "Word" && pascal[2] == "IO";
    assert pascal == ["IO", "Word", "IO"];
    assert Concat(["IO", "Word", "IO"]) == "IOWordIO";
    assert p.words[1..] == ["word", "io"];
    var camel := TitledCased(p.words[1..], Camel, Cased(p));
    assert camel[0] == "Word" && camel[1] == "IO";
    assert camel == ["Word", "IO"];
    assert "io" + Concat(["Word", "IO"]) == "ioWordIO";
    assert LowerEach(p.words) == ["io", "word", "io"];
    assert Concat(["io", "word", "io"]) == "iowordio";
  }

  /** The row with two acronyms together after a plain word: both are upper-cased in
      every scheme, in the middle and at the end of the name. */
  lemma AcronymsTogetherRow()
    ensures var p := New(["word", "io", "ui"], false, ["ui", "io"], None);
      && NameByScheme(p, Hyphen) == Ok("word-IO-UI")
      && NameByScheme(p, Underscore) == Ok("word_IO_UI")
      && NameByScheme(p, Camel) == Ok("wordIOUI")
      && NameByScheme(p, Pascal) == Ok("WordIOUI")
      && NameByScheme(p, Lower) == Ok("wordioui")
  {
    AcronymsTogetherSeparated();
    AcronymsTogetherJoined();
  }

  lemma AcronymsTogetherSeparated()
    ensures var p := New(["word", "io", "ui"], false, ["ui", "io"], None);
      && NameByScheme(p, Hyphen) == Ok("word-IO-UI")
      && NameByScheme(p, Underscore) == Ok("word_IO_UI")
  {
    var p := New(["word", "io", "ui"], false, ["ui", "io"], None);
    RowWordFacts();
    assert p.acronyms == ["UI", "IO"];
    var hyphen := CasedEach(p.words, Hyphen, Cased(p));
    assert hyphen[0] == "word" && hyphen[1] == "IO" && hyphen[2] == "UI";
    assert hyphen == ["word", "IO", "UI"];
    assert Join("-", ["word", "IO", "UI"]) == "word-IO-UI";
    var underscore := CasedEach(p.words, Underscore, Cased(p));
    assert underscore[0] == "word" && underscore[1] == "IO" && underscore[2] == "UI";
    assert underscore == ["word", "IO", "UI"];
    assert Join("_", ["word", "IO", "UI"]) == "word_IO_UI";
  }

  lemma AcronymsTogetherJoined()
    ensures var p := New(["word", "io", "ui"], false, ["ui", "io"], None);
      && NameByScheme(p, Camel) == Ok("wordIOUI")
      && NameByScheme(p, Pascal) == Ok("WordIOUI")
      && NameByScheme(p, Lower) == Ok("wordioui")
  {
    var p := New(["word", "io", "ui"], false, ["ui", "io"], None);
    RowWordFacts();
    assert p.acronyms == ["UI", "IO"];
    var pascal := TitledCased(p.words, Pascal, Cased(p));
    assert pascal[0] == "Word" && pascal[1] == "IO" && pascal[2] == "UI";
    assert pascal == ["Word", "IO", "UI"];
    assert Concat(["Word", "IO", "UI"]) == "WordIOUI";
    assert p.words[1..] == ["io", "ui"];
    var camel := TitledCased(p.words[1..], Camel, Cased(p));
    assert camel[0] == "IO" && camel[1] == "UI";
    assert camel == ["IO", "UI"];
    assert "word" + Concat(["IO", "UI"]) == "wordIOUI";
    assert LowerEach(p.words) == ["word", "io", "ui"];
    assert Concat(["word", "io", "ui"]) == "wordioui";
  }

  /** Case mappings of the words of the rows above. */
  lemma RowWordFacts()
    ensures ToUpper("io") == "IO" && ToUpper("Io") == "IO" && ToUpper("ui") == "UI" && ToUpper("Ui") == "UI"
    ensures UpperEach(["io"]) == ["IO"] && UpperEach(["ui", "io"]) == ["UI", "IO"]
    ensures ToTitle("io") == "Io" && ToTitle("ui") == "Ui" && ToTitle("word") == "Word"
    ensures ToLower("io") == "io" && ToLower("ui") == "ui" && ToLower("word") == "word"
    ensures |ToUpper("word")| == 4 && |ToUpper("Word")| == 4
  {
    assert ToUpper("io")[0] == 'I' && ToUpper("io")[1] == 'O';
    assert ToUpper("Io")[0] == 'I' && ToUpper("Io")[1] == 'O';
    assert ToUpper("ui")[0] == 'U' && ToUpper("ui")[1] == 'I';
    assert ToUpper("Ui")[0] == 'U' && ToUpper("Ui")[1] == 'I';
    assert ToLower("io")[0] == 'i' && ToLower("io")[1] == 'o';
    assert ToLower("ui")[0] == 'u' && ToLower("ui")[1] == 'i';
    assert ToLower("word")[0] == 'w' && ToLower("word")[1] == 'o' && ToLower("word")[2] == 'r' && ToLower("word")[3] == 'd';
    assert UpperEach(["io"])[0] == "IO";
    assert UpperEach(["ui", "io"])[0] == "UI" && UpperEach(["ui", "io"])[1] == "IO";
  }
}
