/** The language-model completion service, seen from the caller: a rendered
    prompt goes in and either the generated text or an error comes out. The
    wording of each prompt template is left abstract; a prompt is the
    template it was rendered from together with the text substituted into
    that template's single placeholder. */
module Completion {
  import opened Wrappers

  /** Which template a prompt was rendered from. */
  datatype TemplateId =
    | Utterance(mode: string)  // an entry of the utterance `PROMPTS` table
    | Document(mode: string)   // an entry of the document `EDIT_PROMPTS` table
    | SessionTitle             // "generate a short, descriptive title"
    | SessionOrganize          // "organize and structure the following notes"

  datatype Prompt = Prompt(template: TemplateId, text: string)

  /** A synchronous completion call (`chain.invoke`). */
  type Complete = Prompt -> Result<string>

  /** An incremental completion call (`chain.stream`): the chunks in the
      order the service produces them. */
  type CompleteStream = Prompt -> Result<seq<string>>

  /** One entry of a prompt table (`PROMPTS`, `EDIT_PROMPTS`): a mode
      and its template, if it has one. */
  datatype PromptEntry = PromptEntry(mode: string, template: Option<TemplateId>)

  /** `mode` looked up in a table: `None` when it is not a key, otherwise
      the key's value (itself `None` for a mode without a template, such as
      `raw`). */
  function Lookup(table: seq<PromptEntry>, mode: string): Option<Option<TemplateId>> {
    if table == [] then None
    else if table[0].mode == mode then Some(table[0].template)
    else Lookup(table[1..], mode)
  }

  /** `list(table.keys())` */
  function Keys(table: seq<PromptEntry>): (keys: seq<string>)
    ensures |keys| == |table|
    ensures forall i :: 0 <= i < |table| ==> keys[i] == table[i].mode
  {
    if table == [] then [] else [table[0].mode] + Keys(table[1..])
  }
}
