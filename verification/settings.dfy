/** The plugin's configuration constants, the model token-size table and the settings record. */
module Settings {
  import opened Wrappers

  const YOUTUBE_BASE_URL: string := "youtube.com"
  const DEFAULT_TEMPLATE: string :=
    "---\ndate: {{Date}}\n---\n# {{Title}}\n![]({{ImageURL}})\n## Description:\n{{Description}}\n-> [Youtube video Link]({{VideoUrl}})\n\n## Summary:\n"
  const DEFAULT_DATE_FORMAT: string := "YYYY-MM-DD"
  const DEFAULT_SUMMARY_SIZE: int := 3
  const MAX_SUMMARY_SIZE: int := 20
  const PROVIDER_CHOICES: seq<string> := ["OpenAI", "Ollama"]

  /** The models offered in the OpenAI model dropdown, in display order. */
  const OPEN_AI_MODEL_CHOICES: seq<string> := [
    "gpt-3.5-turbo",
    "gpt-4",
    "gpt-4-0125-preview",
    "gpt-4-turbo-preview",
    "gpt-4-1106-preview",
    "gpt-4-vision-preview",
    "gpt-4-0613",
    "gpt-4-32k",
    "gpt-4-32k-0613",
    "gpt-3.5-turbo-1106",
    "gpt-3.5-turbo-16k",
    "gpt-3.5-turbo-instruct",
    "gpt-3.5-turbo-0613",
    "gpt-3.5-turbo-16k-0613",
    "gpt-3.5-turbo-0301"
  ]

  /** The maximum request size of each OpenAI model. */
  const OPEN_AI_MODELS_MAX_TOKEN_SIZES: map<string, int> := map[
    "gpt-3.5-turbo" := 4096,
    "gpt-4" := 8192,
    "gpt-4-0125-preview" := 128000,
    "gpt-4-turbo-preview" := 128000,
    "gpt-4-1106-preview" := 128000,
    "gpt-4-vision-preview" := 128000,
    "gpt-4-0613" := 8192,
    "gpt-4-32k" := 32768,
    "gpt-4-32k-0613" := 32768,
    "gpt-3.5-turbo-1106" := 16385,
    "gpt-3.5-turbo-16k" := 16384,
    "gpt-3.5-turbo-instruct" := 4096,
    "gpt-3.5-turbo-0613" := 4096,
    "gpt-3.5-turbo-16k-0613" := 16384,
    "gpt-3.5-turbo-0301" := 4096
  ]

  const DEFAULT_PROVIDER: string := PROVIDER_CHOICES[0]
  const DEFAULT_OLLAMA_MAX_TOKEN_SIZE: int := 4098
  const DEFAULT_TEMPERATURE: real := 0.8
  const DEFAULT_OPEN_AI_MODEL: string := OPEN_AI_MODEL_CHOICES[0]
  const DEFAULT_OPEN_AI_TOKEN_SIZE: int := OPEN_AI_MODELS_MAX_TOKEN_SIZES[DEFAULT_OPEN_AI_MODEL]

  /** The persisted plugin settings. `openAIApiKey` is `None` when the loaded data carries no usable key
      (`undefined` or `null`), which the command pre-check distinguishes from the empty string only to
      treat both alike. */
  datatype PluginSettings = PluginSettings(
    provider: string,
    openAIApiKey: Option<string>,
    openAIModel: string,
    ollamaUrl: string,
    ollamaModels: map<string, string>,
    ollamaModel: string,
    maxTokenSize: int,
    temperature: real,
    summarySize: int,
    templateFormat: string,
    dateFormat: string
  )

  const DEFAULT_SETTINGS: PluginSettings := PluginSettings(
    provider := DEFAULT_PROVIDER,
    openAIApiKey := Some(""),
    openAIModel := DEFAULT_OPEN_AI_MODEL,
    ollamaUrl := "http://localhost:11434",
    ollamaModels := map[],
    ollamaModel := "No Model",
    maxTokenSize := DEFAULT_OLLAMA_MAX_TOKEN_SIZE,
    temperature := DEFAULT_TEMPERATURE,
    summarySize := DEFAULT_SUMMARY_SIZE,
    templateFormat := DEFAULT_TEMPLATE,
    dateFormat := DEFAULT_DATE_FORMAT
  )

  /** The token size the table gives a selectable model: every selectable model has one, and it is
      positive. */
  function TokenSizeOf(model: string): (size: int)
    requires model in OPEN_AI_MODEL_CHOICES
    ensures model in OPEN_AI_MODELS_MAX_TOKEN_SIZES && size == OPEN_AI_MODELS_MAX_TOKEN_SIZES[model]
    ensures size > 0
  {
    ModelTableMatchesChoices();
    OPEN_AI_MODELS_MAX_TOKEN_SIZES[model]
  }

  /** The dropdown and the token table list the same fifteen distinct models, and every size is positive. */
  lemma ModelTableMatchesChoices()
    ensures |OPEN_AI_MODEL_CHOICES| == 15
    ensures forall i, j :: 0 <= i < j < |OPEN_AI_MODEL_CHOICES| ==> OPEN_AI_MODEL_CHOICES[i] != OPEN_AI_MODEL_CHOICES[j]
    ensures forall m :: m in OPEN_AI_MODEL_CHOICES <==> m in OPEN_AI_MODELS_MAX_TOKEN_SIZES
    ensures forall m :: m in OPEN_AI_MODELS_MAX_TOKEN_SIZES ==> OPEN_AI_MODELS_MAX_TOKEN_SIZES[m] > 0
  {
  }

  /** The derived defaults: the first model and its size, the first provider, a non-empty clamp range. */
  lemma DefaultConstants()
    ensures DEFAULT_OPEN_AI_MODEL == "gpt-3.5-turbo" && DEFAULT_OPEN_AI_TOKEN_SIZE == 4096
    ensures DEFAULT_PROVIDER == "OpenAI" && DEFAULT_PROVIDER in PROVIDER_CHOICES
    ensures DEFAULT_SUMMARY_SIZE <= MAX_SUMMARY_SIZE
  {
  }

  /** The default record uses the Ollama token size although its provider is OpenAI, and starts with an
      empty key and the placeholder Ollama model. */
  lemma DefaultSettingsFacts()
    ensures DEFAULT_SETTINGS.maxTokenSize == 4098 != DEFAULT_OPEN_AI_TOKEN_SIZE
    ensures DEFAULT_SETTINGS.provider == "OpenAI"
    ensures DEFAULT_SETTINGS.openAIApiKey == Some("")
    ensures DEFAULT_SETTINGS.ollamaModel == "No Model"
  {
  }
}
