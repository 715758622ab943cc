/** language.go: the ordered list of configured language codes. */
module Language {
  import opened Base
  import Ascii

  /** A stored language code: an ISO 639-1 code once lowercased, i.e. two lowercase
      ASCII letters. */
  predicate IsCode(lang: string)
  {
    |lang| == 2 && forall i :: 0 <= i < |lang| ==> Ascii.IsLowerLetter(lang[i])
  }

  /** What the configuration entry points ask of their callers: every code is written
      in ASCII letters, as ISO 639-1 codes are. Only the length is checked. */
  predicate LetterCodes(langs: seq<string>)
  {
    forall i :: 0 <= i < |langs| ==> Ascii.IsLetters(langs[i])
  }

  /** Every entry is a stored language code. */
  ghost predicate AllCodes(langs: seq<string>)
  {
    forall i :: 0 <= i < |langs| ==> IsCode(langs[i])
  }

  /** The codes lowercased, in the order given. */
  function Lowered(langs: seq<string>): (r: seq<string>)
  {
    seq(|langs|, i requires 0 <= i < |langs| => Ascii.Lower(langs[i]))
  }

  /** Lowering one more code appends its lowercase form. */
  lemma LoweredSnoc(langs: seq<string>, i: nat)
    requires i < |langs|
    ensures Lowered(langs[..i + 1]) == Lowered(langs[..i]) + [Ascii.Lower(langs[i])]
  {
  }

  /** The number of leading codes that pass the length check, i.e. how far the
      configuration loop gets before it panics (all of them when none is bad). */
  function CheckedPrefix(langs: seq<string>): (n: nat)
    ensures n <= |langs|
    ensures forall j :: 0 <= j < n ==> |langs[j]| == 2
    ensures n < |langs| ==> |langs[n]| != 2
  {
    if langs == [] || |langs[0]| != 2 then 0 else 1 + CheckedPrefix(langs[1..])
  }

  /** Every lowercased letter code of length 2 is a stored code. */
  lemma LoweredAreCodes(langs: seq<string>)
    requires LetterCodes(langs)
    requires forall j :: 0 <= j < |langs| ==> |langs[j]| == 2
    ensures forall j :: 0 <= j < |langs| ==> IsCode(Lowered(langs)[j])
  {
    forall j | 0 <= j < |langs| ensures IsCode(Lowered(langs)[j]) {
      Ascii.LowerOfLetters(langs[j]);
    }
  }

  /** The package-level `languages` variable of language.go. */
  class Registry {
    var languages: seq<string>

    ghost predicate Valid()
      reads this
    {
      AllCodes(languages)
    }

    constructor ()
      ensures Valid() && languages == []
    {
      languages := [];
    }

    /** setupLanguage: discard the old list, then lowercase and append each code in turn;
        a code whose length is not 2 stops the loop with a panic, leaving the codes
        before it in place. ok == false stands for the panic. */
    method SetupLanguage(langs: seq<string>) returns (ok: bool)
      requires LetterCodes(langs)
      modifies this
      ensures Valid()
      ensures ok <==> forall j :: 0 <= j < |langs| ==> |langs[j]| == 2
      ensures languages == Lowered(langs[..CheckedPrefix(langs)])
      ensures ok ==> |languages| == |langs| &&
                     forall j :: 0 <= j < |langs| ==> GetLanguage(j) == Ok(Ascii.Lower(langs[j]))
    {
      languages := [];
      var i := 0;
      while i < |langs|
        invariant 0 <= i <= CheckedPrefix(langs)
        invariant languages == Lowered(langs[..i])
        invariant Valid()
      {
        if |langs[i]| != 2 {
          return false;
        }
        Ascii.LowerOfLetters(langs[i]);
        languages := languages + [Ascii.Lower(langs[i])];
        i := i + 1;
      }
      assert langs[..i] == langs;
      return true;
    }

    /** getLanguage: the code at index tp, or ErrLanguageIndex outside the list. */
    function GetLanguage(tp: int): (r: Result<string, Error>)
      reads this
      ensures r.Ok? <==> 0 <= tp < |languages|
      ensures r.Ok? ==> r.value == languages[tp]
      ensures r.Err? ==> r.error == ErrLanguageIndex
    {
      if tp < 0 || tp >= |languages| then Err(ErrLanguageIndex) else Ok(languages[tp])
    }

    /** getAll: the whole list in configuration order, one entry per valid index. */
    function GetAll(): (r: seq<string>)
      reads this
      ensures |r| == |languages|
      ensures forall i :: 0 <= i < |r| ==> GetLanguage(i) == Ok(r[i])
    {
      languages
    }
  }
}
