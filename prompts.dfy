/**
 * The prompt of `get_translation_prompt`: the source language (detected when it is
 * `"auto"`), the style's instruction and the text, in a fixed template. Long
 * literals are written as concatenations of short pieces, which the verifier
 * handles far more cheaply than one long literal.
 */
module Prompts {
  import opened Common
  import opened Text

  /** `detect_language(text)`: the detector's answer, or `"en"` when it fails. */
  function DetectLanguage(text: string, detect: string -> Option<string>): (r: string)
    ensures detect(text).Some? ==> r == detect(text).value
    ensures detect(text).None? ==> r == "en"
  {
    match detect(text)
    case Some(lang) => lang
    case None => "en"
  }

  /** `text[:n]` */
  function Prefix(text: string, n: nat): (r: string)
    ensures |r| == if |text| <= n then |text| else n
    ensures r <= text
  {
    if |text| <= n then text else text[..n]
  }

  /** The styles `get_translation_prompt` has an instruction for. */
  datatype Style = Formal | Colloquial | Literary | Novel | Journalistic | Technical | Transcreation

  /** The name a style is given by in a request. */
  function StyleName(s: Style): string {
    match s
    case Formal => "Formal"
    case Colloquial => "Colloquial"
    case Literary => "Literary"
    case Novel => "Novel"
    case Journalistic => "Journalistic"
    case Technical => "Technical"
    case Transcreation => "Transcreation"
  }

  /** The style a request's name selects, if any. */
  function ParseStyle(name: string): (r: Option<Style>)
    ensures r.Some? ==> StyleName(r.value) == name
  {
    if name == "Formal" then Some(Formal)
    else if name == "Colloquial" then Some(Colloquial)
    else if name == "Literary" then Some(Literary)
    else if name == "Novel" then Some(Novel)
    else if name == "Journalistic" then Some(Journalistic)
    else if name == "Technical" then Some(Technical)
    else if name == "Transcreation" then Some(Transcreation)
    else None
  }

  /** Every style is selected by its own name, and by no other. */
  lemma ParseStyleName(s: Style)
    ensures ParseStyle(StyleName(s)) == Some(s)
  {
  }

  /** The instruction `style_instructions` holds for a style. */
  function Instruction(s: Style): (r: string)
    ensures r != ""
  {
    match s
    case Formal =>
      "Use a formal and " + "official tone."
    case Colloquial =>
      "Use a casual, " + "conversational, " + "and everyday tone."
    case Literary =>
      "Translate with a " + "literary and " + "artistic style, " + "paying attention "
      + "to nuances and " + "poetic elements."
    case Novel =>
      "Translate in a " + "style suitable " + "for web novels or " + "light novels, "
      + "focusing on " + "readability and " + "engaging dialogue."
    case Journalistic =>
      "Use a clear, " + "concise, and " + "objective tone " + "suitable for news "
      + "articles."
    case Technical =>
      "Translate with " + "high precision " + "for technical " + "terms and jargon. "
      + "Maintain the " + "original meaning " + "accurately."
    case Transcreation =>
      "Adapt the text " + "culturally and " + "emotionally for " + "the target "
      + "audience, not " + "just a literal " + "translation. " + "Recreate the "
      + "original intent " + "and impact."
  }

  /** `style_instructions.get(style, "")`: empty exactly for a name that selects no style. */
  function StyleInstruction(name: string): (r: string)
    ensures r == "" <==> ParseStyle(name).None?
    ensures ParseStyle(name).Some? ==> r == Instruction(ParseStyle(name).value)
  {
    match ParseStyle(name)
    case None => ""
    case Some(s) => Instruction(s)
  }

  /** How the prompt names the source language; `"auto"` detects it from the first 200 characters. */
  function SourceLangText(text: string, sourceLang: string, detect: string -> Option<string>): (r: string)
    ensures sourceLang != "auto" ==> IsInfix(sourceLang, r)
    ensures sourceLang == "auto" ==> IsInfix(DetectLanguage(Prefix(text, 200), detect), r)
  {
    if sourceLang == "auto" then
      var lang := DetectLanguage(Prefix(text, 200), detect);
      InfixOfConcat(lang, "from the auto-detected language '", "'");
      "from the auto-detected language '" + lang + "'"
    else
      InfixSuffix(sourceLang, "from ");
      "from " + sourceLang
  }

  /** The task line of the template, naming the target language. */
  function TaskLine(targetLang: string): (r: string)
    ensures IsInfix(targetLang, r)
  {
    var intro := "\n    **Task**: " + "Translate the " + "following text " + "into **";
    InfixOfConcat(targetLang, intro, "** ");
    intro + targetLang + "** "
  }

  /** The style line of the template, with the style's instruction. */
  function StyleLine(style: string, instruction: string): (r: string)
    ensures IsInfix(instruction, r)
  {
    InfixSuffix(instruction, ".\n    **Style**: " + style + ". ");
    ".\n    **Style**: " + style + ". " + instruction
  }

  /** The rules of the template, then the text between two `---` lines. */
  function RulesAndText(text: string): (r: string)
    ensures IsInfix(text, r)
  {
    var rules :=
      "\n    " + "**Rules**:\n    " + "1.  Translate the " + "content "
      + "accurately while " + "adhering to the " + "specified " + "style.\n    2.  "
      + "**CRITICAL**: " + "Preserve all " + "original " + "formatting, "
      + "including " + "markdown, line " + "breaks, HTML tags " + "(like `<i>`, "
      + "`<b>`), and " + "special markers " + "(like `{...}`) " + "EXACTLY as they "
      + "are. Do not add " + "or remove " + "them.\n    3.  " + "Provide ONLY the "
      + "translated text " + "as the output, " + "without any extra " + "explanations, "
      + "introductory " + "phrases, or " + "apologies.\n\n    " + "**Text to "
      + "Translate**:\n    " + "---\n    ";
    InfixOfConcat(text, rules, "\n    ---\n    ");
    rules + text + "\n    ---\n    "
  }

  /** What lies in the pieces of a four-piece string lies in the whole. */
  lemma InfixOfFour(a: string, c: string, d: string, w: string, x: string, y: string, z: string)
    requires IsInfix(a, w) && IsInfix(c, y) && IsInfix(d, z)
    ensures var s := w + x + y + z;
      IsInfix(a, s) && IsInfix(x, s) && IsInfix(c, s) && IsInfix(d, s)
  {
    InfixExtend(a, w, [], x);
    InfixExtend(a, w + x, [], y);
    InfixExtend(a, w + x + y, [], z);
    InfixOfConcat(x, w, y);
    InfixExtend(x, w + x + y, [], z);
    InfixExtend(c, y, w + x, []);
    InfixExtend(c, w + x + y, [], z);
    InfixExtend(d, z, w + x + y, []);
  }

  /**
   * `get_translation_prompt(text, style, target_lang, source_lang)`: the prompt holds
   * the text verbatim, the target language, the source language and the style's
   * instruction.
   */
  function Prompt(text: string, style: string, targetLang: string, sourceLang: string,
                  detect: string -> Option<string>): (r: string)
    ensures IsInfix(text, r) && IsInfix(targetLang, r) && IsInfix(StyleInstruction(style), r)
    ensures IsInfix(SourceLangText(text, sourceLang, detect), r)
  {
    var task := TaskLine(targetLang);
    var source := SourceLangText(text, sourceLang, detect);
    var styleLine := StyleLine(style, StyleInstruction(style));
    var rest := RulesAndText(text);
    InfixOfFour(targetLang, StyleInstruction(style), text, task, source, styleLine, rest);
    task + source + styleLine + rest
  }

  /** Detection sees only the first 200 characters: texts that share them get the same source language. */
  lemma DetectionUsesPrefix(t1: string, t2: string, detect: string -> Option<string>)
    requires Prefix(t1, 200) == Prefix(t2, 200)
    ensures SourceLangText(t1, "auto", detect) == SourceLangText(t2, "auto", detect)
  {
  }
}
