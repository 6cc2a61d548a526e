/** The single source of truth for the AI provider and model: the model
    id tables, the active choice and its validation. */
module AiConfig {
  import opened Wrappers
  import opened Strings
  import opened Sequences

  datatype ProviderName = Anthropic | OpenAi

  /** The Anthropic model ids, in declaration order. */
  const AnthropicModels: seq<string> :=
    ["claude-opus-4-20250514", "claude-sonnet-4-20250514", "claude-haiku-3-5-20241022"]

  /** The OpenAI model ids, in declaration order. */
  const OpenAiModels: seq<string> := ["gpt-4o", "gpt-4o-mini", "gpt-4-turbo"]

  /** The active configuration. */
  const ActiveProvider: ProviderName := Anthropic
  const ActiveModel: string := AnthropicModels[1]
  const DefaultMaxTokens: nat := 1024
  const DefaultTemperature: real := 0.3

  datatype ModelInfo = ModelInfo(provider: ProviderName, model: string)

  /** `getModelInfo` */
  function GetModelInfo(): (r: ModelInfo)
    ensures r.provider == ActiveProvider && r.model == ActiveModel
  {
    ModelInfo(ActiveProvider, ActiveModel)
  }

  /** `validateConfig` for a given provider and model: the error names the
      model and lists the provider's valid ones. */
  function ValidateConfig(provider: ProviderName, model: string): (r: Result<(), string>)
  {
    if provider == Anthropic && model !in AnthropicModels then
      Err("Invalid Anthropic model: " + model + ". Valid: " + Join(AnthropicModels, ", "))
    else if provider == OpenAi && model !in OpenAiModels then
      Err("Invalid OpenAI model: " + model + ". Valid: " + Join(OpenAiModels, ", "))
    else Ok(())
  }

  /** The models of a provider. */
  function ModelsOf(provider: ProviderName): seq<string> {
    if provider == Anthropic then AnthropicModels else OpenAiModels
  }

  /** Validation fails exactly when the model is not one of its provider's,
      and the message then starts with the model and ends with the list. */
  lemma ValidateExactly(provider: ProviderName, model: string)
    ensures ValidateConfig(provider, model).Err? <==> model !in ModelsOf(provider)
    ensures ValidateConfig(provider, model).Err? ==>
              var msg := ValidateConfig(provider, model).error;
              var prefix := if provider == Anthropic then "Invalid Anthropic model: " else "Invalid OpenAI model: ";
              && msg[..|prefix|] == prefix
              && msg[|prefix|..|prefix| + |model|] == model
              && EndsWith(msg, ". Valid: " + Join(ModelsOf(provider), ", "))
  {
    if ValidateConfig(provider, model).Err? {
      var prefix := if provider == Anthropic then "Invalid Anthropic model: " else "Invalid OpenAI model: ";
      var tail := ". Valid: " + Join(ModelsOf(provider), ", ");
      var msg := prefix + model + tail;
      assert ValidateConfig(provider, model).error == msg;
      assert msg[..|prefix|] == prefix;
      assert msg[|prefix|..|prefix| + |model|] == model;
      assert msg[|msg| - |tail|..] == tail;
    }
  }

  /** The active configuration passes validation, and it is what
      `getModelInfo` reports. */
  lemma ActiveConfigValid()
    ensures ValidateConfig(GetModelInfo().provider, GetModelInfo().model) == Ok(())
  {
    assert ActiveModel in AnthropicModels;
  }

  /** No model id belongs to both providers, and each table lists three
      different ids. */
  lemma ModelTablesDisjoint()
    ensures forall m :: m in AnthropicModels ==> m !in OpenAiModels
    ensures Distinct(AnthropicModels) && Distinct(OpenAiModels)
  {
    forall m | m in AnthropicModels ensures m !in OpenAiModels {
      assert m[0] == 'c';
      forall k | 0 <= k < |OpenAiModels| ensures OpenAiModels[k][0] == 'g' { }
    }
  }
}
