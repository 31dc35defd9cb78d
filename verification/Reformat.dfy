/** The parser and the printer together, as a program that rewrites a model file. */
module Reformat {
  import opened Text
  import opened Acts
  import R = Rules
  import Image
  import G = GivenBack
  import Parser
  import Printer

  /** Writes a model and parses the text into an empty model object: the model is loaded unchanged exactly when it is one
      that the format can give back. */
  method SaveAndLoad(m: Model) returns (loaded: Parser.ModelObject, ok: bool)
    ensures ok && loaded.Contents() == m <==> G.IsGivenBack(m)
  {
    hide PrintModel, R.ParseInto, G.IsGivenBack;
    var os := new Printer.Stream();
    Printer.WriteModel(os, m);
    G.RoundTripExactly(m);
    assert "" + PrintModel(m) == PrintModel(m);
    loaded := new Parser.ModelObject();
    var parser := new Parser.ActsParser();
    ok := parser.ParseInputModel(os.text, loaded);
  }

  /** Rewrites a text. What is written is parsed into the same model, and so is left as it is when it is rewritten again,
      exactly when the format can give back the texts of the model; for a text that is trimmed well it can. */
  method Rewrite(text: string) returns (ok: bool, rewritten: string)
    ensures ok == R.Parse(text).Match?
    ensures ok ==> rewritten == PrintModel(R.Parse(text).value)
    ensures ok ==> (R.Parse(rewritten) == R.Match(|rewritten|, R.Parse(text).value) <==>
                    G.TextsGivenBack(R.Parse(text).value))
    ensures ok && Image.TextTrims(text) ==> G.TextsGivenBack(R.Parse(text).value)
  {
    hide PrintModel, R.ParseInto, Image.TextTrims, G.TextsGivenBack;
    rewritten := "";
    var m := new Parser.ModelObject();
    var parser := new Parser.ActsParser();
    ok := parser.ParseInputModel(text, m);
    if ok {
      var os := new Printer.Stream();
      Printer.WriteModel(os, m.Contents());
      rewritten := os.text;
      assert "" + PrintModel(m.Contents()) == PrintModel(m.Contents());
      G.NormalisesExactly(text);
      if Image.TextTrims(text) { Image.Normalisation(text); }
    }
  }
}
