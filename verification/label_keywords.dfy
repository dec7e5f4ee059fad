/** `LABEL_KEYWORDS` of `LabelDerivationService` and which labels a search
    text matches. */
module LabelKeywords {
  import opened JavaText
  import opened LabelText

  /** `LABEL_KEYWORDS`: a keyword and the label it stands for. The map is a
      `HashMap`; its entries are listed here in the order they are put. */
  const Keywords: seq<(string, string)> := [
    ("classroom", "Classroom"),
    ("scientific", "Scientific"),
    ("graphic", "Graphic"),
    ("statistical", "Statistical"),
    ("business", "Business"),
    ("led", "LED"),
    ("lcd", "LCD"),
    ("vfd", "VFD"),
    ("oled", "OLED"),
    ("programmable", "Programmable"),
    ("financial", "Financial"),
    ("printing", "Printing"),
    ("pocket", "Pocket"),
    ("desktop", "Desktop"),
    ("rpn", "RPN"),
    ("algebraic", "Algebraic"),
    ("mechanical", "Mechanical"),
    ("electromechanical", "Electromechanical")]

  /** The description a label gets when derivation creates it. */
  const DerivedDescription: string := "Automatically derived from calculator data"

  /** A label name with no blank unit at either end. */
  predicate Trimmed(s: string) {
    s != "" && !IsTrimmed(s[0]) && !IsTrimmed(s[|s| - 1])
  }

  /** Every label name of the keyword table is already trimmed, so
      `createCuratedLabel` stores it as written. */
  lemma KeywordNamesTrimmed()
    ensures forall i :: 0 <= i < |Keywords| ==> Trimmed(Keywords[i].1)
  {
  }

  // ------------------------------------------------------------ matching

  /** The label names whose keyword occurs in the text. */
  function Matched(text: string): (r: set<string>)
    ensures forall name :: name in r ==> exists i :: 0 <= i < |Keywords| && Keywords[i].1 == name
  {
    set i | 0 <= i < |Keywords| && ContainsKeyword(text, Keywords[i].0) :: Keywords[i].1
  }

  /** A keyword that ends with another keyword yields both labels. */
  lemma InnerKeyword(text: string, inner: nat, outer: nat, prefix: string)
    requires inner < |Keywords| && outer < |Keywords|
    requires Keywords[outer].0 == prefix + (Keywords[inner].0 + "")
    requires ContainsKeyword(text, Keywords[outer].0)
    ensures Keywords[inner].1 in Matched(text) && Keywords[outer].1 in Matched(text)
  {
    KeywordWithin(text, prefix, Keywords[inner].0, "");
  }

  /** Keyword 17, "electromechanical", contains keyword 16, "mechanical",
      so it yields both Mechanical and Electromechanical. */
  lemma ElectromechanicalIsMechanical(text: string)
    ensures Keywords[16] == ("mechanical", "Mechanical") && Keywords[17] == ("electromechanical", "Electromechanical")
    ensures ContainsKeyword(text, Keywords[17].0) ==> "Mechanical" in Matched(text) && "Electromechanical" in Matched(text)
  {
    var outer := Keywords[17].0;
    assert outer[7..] == Keywords[16].0;
    assert outer == outer[..7] + (Keywords[16].0 + "");
    if ContainsKeyword(text, outer) {
      InnerKeyword(text, 16, 17, outer[..7]);
    }
  }

  /** Keyword 8, "oled", contains keyword 5, "led", so it yields both OLED
      and LED. */
  lemma OledIsLed(text: string)
    ensures Keywords[5] == ("led", "LED") && Keywords[8] == ("oled", "OLED")
    ensures ContainsKeyword(text, Keywords[8].0) ==> "LED" in Matched(text) && "OLED" in Matched(text)
  {
    if ContainsKeyword(text, Keywords[8].0) {
      assert Keywords[8].0 == "o" + (Keywords[5].0 + "");
      InnerKeyword(text, 5, 8, "o");
    }
  }
}
