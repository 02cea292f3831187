/** The plugin object of `main.ts`: the settings it holds, the command pre-check, and the updates the
    settings tab makes. */
module Plugin {
  import opened Wrappers
  import opened Strings
  import opened Settings
  import opened ChunkWindows

  /** A partial settings record, as `updateSettings` receives it: `Some` for each field present. */
  datatype SettingsPatch = SettingsPatch(
    provider: Option<string>,
    openAIApiKey: Option<string>,
    openAIModel: Option<string>,
    ollamaUrl: Option<string>,
    ollamaModels: Option<map<string, string>>,
    ollamaModel: Option<string>,
    maxTokenSize: Option<int>,
    temperature: Option<real>,
    summarySize: Option<int>,
    templateFormat: Option<string>,
    dateFormat: Option<string>
  )

  const EMPTY_PATCH: SettingsPatch := SettingsPatch(None, None, None, None, None, None, None, None, None, None, None)

  function Pick<T>(v: Option<T>, current: T): T {
    if v.Some? then v.value else current
  }

  /** `Object.assign(settings, patch)`: each field present in the patch is overwritten, every other
      field keeps its value. */
  function Merge(s: PluginSettings, p: SettingsPatch): PluginSettings {
    PluginSettings(
      provider := Pick(p.provider, s.provider),
      openAIApiKey := if p.openAIApiKey.Some? then p.openAIApiKey else s.openAIApiKey,
      openAIModel := Pick(p.openAIModel, s.openAIModel),
      ollamaUrl := Pick(p.ollamaUrl, s.ollamaUrl),
      ollamaModels := Pick(p.ollamaModels, s.ollamaModels),
      ollamaModel := Pick(p.ollamaModel, s.ollamaModel),
      maxTokenSize := Pick(p.maxTokenSize, s.maxTokenSize),
      temperature := Pick(p.temperature, s.temperature),
      summarySize := Pick(p.summarySize, s.summarySize),
      templateFormat := Pick(p.templateFormat, s.templateFormat),
      dateFormat := Pick(p.dateFormat, s.dateFormat)
    )
  }

  /** The patch that sets every field of `s`. */
  function FullPatch(s: PluginSettings): SettingsPatch {
    SettingsPatch(Some(s.provider), s.openAIApiKey, Some(s.openAIModel), Some(s.ollamaUrl), Some(s.ollamaModels),
                  Some(s.ollamaModel), Some(s.maxTokenSize), Some(s.temperature), Some(s.summarySize),
                  Some(s.templateFormat), Some(s.dateFormat))
  }

  /** Two patches applied one after the other: the later one wins where both have a field. */
  function Combine(p: SettingsPatch, q: SettingsPatch): SettingsPatch {
    SettingsPatch(
      if q.provider.Some? then q.provider else p.provider,
      if q.openAIApiKey.Some? then q.openAIApiKey else p.openAIApiKey,
      if q.openAIModel.Some? then q.openAIModel else p.openAIModel,
      if q.ollamaUrl.Some? then q.ollamaUrl else p.ollamaUrl,
      if q.ollamaModels.Some? then q.ollamaModels else p.ollamaModels,
      if q.ollamaModel.Some? then q.ollamaModel else p.ollamaModel,
      if q.maxTokenSize.Some? then q.maxTokenSize else p.maxTokenSize,
      if q.temperature.Some? then q.temperature else p.temperature,
      if q.summarySize.Some? then q.summarySize else p.summarySize,
      if q.templateFormat.Some? then q.templateFormat else p.templateFormat,
      if q.dateFormat.Some? then q.dateFormat else p.dateFormat)
  }

  /** The merge algebra: an empty patch changes nothing, a patch applied twice acts once, two merges in
      a row are one merge of the combined patch, and a patch of every field replaces the record (over
      the defaults, as long as it carries a key). */
  lemma MergeLaws(s: PluginSettings, p: SettingsPatch, q: SettingsPatch)
    ensures Merge(s, EMPTY_PATCH) == s
    ensures Merge(Merge(s, p), p) == Merge(s, p)
    ensures Merge(Merge(s, p), q) == Merge(s, Combine(p, q))
    ensures Merge(s, FullPatch(s)) == s
    ensures s.openAIApiKey.Some? ==> Merge(DEFAULT_SETTINGS, FullPatch(s)) == s
  {
  }

  /** The fields a patch leaves alone keep their values. */
  lemma MergeKeepsAbsentFields(s: PluginSettings, p: SettingsPatch)
    ensures p.openAIApiKey.None? ==> Merge(s, p).openAIApiKey == s.openAIApiKey
    ensures p.provider.None? ==> Merge(s, p).provider == s.provider
    ensures p.maxTokenSize.None? ==> Merge(s, p).maxTokenSize == s.maxTokenSize
    ensures p.summarySize.None? ==> Merge(s, p).summarySize == s.summarySize
    ensures p.openAIModel.None? ==> Merge(s, p).openAIModel == s.openAIModel
    ensures p.ollamaUrl.None? ==> Merge(s, p).ollamaUrl == s.ollamaUrl
    ensures p.ollamaModels.None? ==> Merge(s, p).ollamaModels == s.ollamaModels
    ensures p.ollamaModel.None? ==> Merge(s, p).ollamaModel == s.ollamaModel
    ensures p.temperature.None? ==> Merge(s, p).temperature == s.temperature
    ensures p.templateFormat.None? ==> Merge(s, p).templateFormat == s.templateFormat
    ensures p.dateFormat.None? ==> Merge(s, p).dateFormat == s.dateFormat
  {
  }

  /** What the "Generate video summary" command does before opening the summary dialog. */
  datatype CommandOutcome = MissingApiKeyNotice | MissingOllamaModelNotice | OpenSummaryModal

  const MISSING_API_KEY_TEXT: string := "OpenAI Api key is not added. Please, go to the settings and add it."
  const MISSING_OLLAMA_MODEL_TEXT: string := "Ollama model is not selected. Please, go to the settings."

  /** The command pre-check: exactly one of the three outcomes, tested in order. */
  function PreCheck(s: PluginSettings): (outcome: CommandOutcome)
    ensures outcome == MissingApiKeyNotice <==>
      s.provider == "OpenAI" && (s.openAIApiKey.None? || s.openAIApiKey == Some(""))
    ensures outcome == MissingOllamaModelNotice <==> s.provider == "Ollama" && s.ollamaModel == ""
    ensures outcome == OpenSummaryModal ==> s.provider != "OpenAI" || (s.openAIApiKey.Some? && s.openAIApiKey.value != "")
  {
    if s.provider == "OpenAI" && (s.openAIApiKey.None? || s.openAIApiKey.value == "") then MissingApiKeyNotice
    else if s.provider == "Ollama" && s.ollamaModel == "" then MissingOllamaModelNotice
    else OpenSummaryModal
  }

  /** A provider other than the two known ones always opens the dialog. */
  lemma UnknownProviderOpens(s: PluginSettings)
    requires s.provider !in PROVIDER_CHOICES
    ensures PreCheck(s) == OpenSummaryModal
  {
  }

  /** The summary size stored for a parsed input: clamped into the range of sizes. */
  function ClampSummarySize(parsed: int): (size: int)
    ensures DEFAULT_SUMMARY_SIZE <= size <= MAX_SUMMARY_SIZE
    ensures DEFAULT_SUMMARY_SIZE <= parsed <= MAX_SUMMARY_SIZE ==> size == parsed
    ensures parsed > MAX_SUMMARY_SIZE ==> size == MAX_SUMMARY_SIZE
    ensures parsed < DEFAULT_SUMMARY_SIZE ==> size == DEFAULT_SUMMARY_SIZE
  {
    if parsed > MAX_SUMMARY_SIZE then MAX_SUMMARY_SIZE
    else if parsed < DEFAULT_SUMMARY_SIZE then DEFAULT_SUMMARY_SIZE
    else parsed
  }

  /** Clamping is idempotent and keeps the order of the inputs. */
  lemma ClampLaws(a: int, b: int)
    ensures ClampSummarySize(ClampSummarySize(a)) == ClampSummarySize(a)
    ensures a <= b ==> ClampSummarySize(a) <= ClampSummarySize(b)
  {
  }

  /** The settings after "Reset defaults": the summary size, the template, the date format, the OpenAI
      model and its token size go back to their defaults; everything else, the key included, stays. */
  function ResetSettings(s: PluginSettings): (r: PluginSettings)
    ensures r.openAIApiKey == s.openAIApiKey && r.provider == s.provider && r.ollamaUrl == s.ollamaUrl
    ensures r.ollamaModel == s.ollamaModel && r.ollamaModels == s.ollamaModels && r.temperature == s.temperature
    ensures r.openAIModel == DEFAULT_OPEN_AI_MODEL && r.maxTokenSize == TokenSizeOf(r.openAIModel)
    ensures r.summarySize == DEFAULT_SUMMARY_SIZE && r.templateFormat == DEFAULT_TEMPLATE
    ensures r.dateFormat == DEFAULT_DATE_FORMAT
  {
    s.(summarySize := DEFAULT_SUMMARY_SIZE, templateFormat := DEFAULT_TEMPLATE, dateFormat := DEFAULT_DATE_FORMAT,
       openAIModel := OPEN_AI_MODEL_CHOICES[0],
       maxTokenSize := OPEN_AI_MODELS_MAX_TOKEN_SIZES[DEFAULT_OPEN_AI_MODEL])
  }

  /** Resetting twice is resetting once, and a reset never changes what the command does. */
  lemma ResetLaws(s: PluginSettings)
    ensures ResetSettings(ResetSettings(s)) == ResetSettings(s)
    ensures PreCheck(ResetSettings(s)) == PreCheck(s)
  {
  }

  /** Reset does not give back the default record: the default token size is the Ollama one (4098),
      the reset one the size of the default OpenAI model (4096). */
  lemma ResetDiffersFromDefaults()
    ensures ResetSettings(DEFAULT_SETTINGS) != DEFAULT_SETTINGS
    ensures ResetSettings(DEFAULT_SETTINGS) == DEFAULT_SETTINGS.(maxTokenSize := 4096)
  {
    DefaultConstants();
  }

  /** The token size input accepts any number, and a stored size of zero or less stalls the chunk loop
      on every transcript of two words or more. */
  lemma StoredNonPositiveSizeStalls(s: PluginSettings, parsed: int, n: nat, k: nat)
    requires parsed <= 0 && n >= 2
    ensures var t := Merge(s, EMPTY_PATCH.(maxTokenSize := Some(parsed)));
      t.maxTokenSize == parsed && !Terminates(n, t.maxTokenSize)
      && StartAfter(n, t.maxTokenSize, k) < n - 1
  {
    NonPositiveSizeNeverEnds(n, parsed, k);
  }

  /** The plugin instance and the settings it holds. */
  class SummarizerPlugin {
    var settings: PluginSettings

    /** `loadSettings`: the stored data laid over the defaults. */
    constructor(stored: SettingsPatch)
      ensures settings == Merge(DEFAULT_SETTINGS, stored)
    {
      settings := Merge(DEFAULT_SETTINGS, stored);
    }

    /** What the command does now. */
    function CommandOutcomeNow(): CommandOutcome
      reads this
    {
      PreCheck(settings)
    }

    /** `updateSettings`: merge the partial record into the settings. */
    method UpdateSettings(patch: SettingsPatch)
      modifies this
      ensures settings == Merge(old(settings), patch)
    {
      settings := Merge(settings, patch);
    }

    /** The OpenAI key field. */
    method OnOpenAIKeyChange(value: string)
      modifies this
      ensures settings == old(settings).(openAIApiKey := Some(value))
    {
      UpdateSettings(EMPTY_PATCH.(openAIApiKey := Some(value)));
    }

    /** The OpenAI model dropdown, which offers the listed models: the model, then its token size. */
    method OnOpenAIModelChange(value: string)
      requires value in OPEN_AI_MODEL_CHOICES
      modifies this
      ensures settings == old(settings).(openAIModel := value, maxTokenSize := TokenSizeOf(value))
      ensures settings.maxTokenSize > 0
    {
      UpdateSettings(EMPTY_PATCH.(openAIModel := Some(value)));
      UpdateSettings(EMPTY_PATCH.(maxTokenSize := Some(OPEN_AI_MODELS_MAX_TOKEN_SIZES[value])));
    }

    /** The Ollama URL field stores the text without surrounding white space. */
    method OnOllamaUrlChange(value: string)
      modifies this
      ensures settings == old(settings).(ollamaUrl := Trim(value))
      ensures settings.ollamaUrl == [] || (!IsJsWhitespace(settings.ollamaUrl[0])
        && !IsJsWhitespace(settings.ollamaUrl[|settings.ollamaUrl| - 1]))
    {
      var parsed := Trim(value);
      UpdateSettings(EMPTY_PATCH.(ollamaUrl := Some(parsed)));
    }

    /** The Ollama model dropdown: the model is written directly and then through `updateSettings`. */
    method OnOllamaModelChange(value: string)
      modifies this
      ensures settings == old(settings).(ollamaModel := value)
    {
      settings := settings.(ollamaModel := value);
      UpdateSettings(EMPTY_PATCH.(ollamaModel := Some(value)));
    }

    /** The token size field: `parsed` is the result of `parseInt`, None for NaN. Any number is stored,
        without a bound. */
    method OnMaxTokenSizeChange(parsed: Option<int>)
      modifies this
      ensures parsed.None? ==> settings == old(settings)
      ensures parsed.Some? ==> settings == old(settings).(maxTokenSize := parsed.value)
    {
      if parsed.None? {
        return;
      }
      UpdateSettings(EMPTY_PATCH.(maxTokenSize := Some(parsed.value)));
    }

    /** The summary size field: `parsed` is the result of `parseInt`, None for NaN; a number is clamped. */
    method OnSummarySizeChange(parsed: Option<int>)
      modifies this
      ensures parsed.None? ==> settings == old(settings)
      ensures parsed.Some? ==> settings == old(settings).(summarySize := ClampSummarySize(parsed.value))
      ensures old(settings.summarySize) in SUMMARY_SIZES ==> settings.summarySize in SUMMARY_SIZES
    {
      if parsed.None? {
        return;
      }
      var size := ClampSummarySize(parsed.value);
      UpdateSettings(EMPTY_PATCH.(summarySize := Some(size)));
    }

    /** The template field. */
    method OnTemplateFormatChange(value: string)
      modifies this
      ensures settings == old(settings).(templateFormat := value)
    {
      UpdateSettings(EMPTY_PATCH.(templateFormat := Some(value)));
    }

    /** The date format field. */
    method OnDateFormatChange(value: string)
      modifies this
      ensures settings == old(settings).(dateFormat := value)
    {
      UpdateSettings(EMPTY_PATCH.(dateFormat := Some(value)));
    }

    /** The "Reset defaults" button. */
    method ResetDefaults()
      modifies this
      ensures settings == ResetSettings(old(settings))
      ensures CommandOutcomeNow() == old(CommandOutcomeNow())
    {
      settings := settings.(summarySize := DEFAULT_SUMMARY_SIZE);
      settings := settings.(templateFormat := DEFAULT_TEMPLATE);
      settings := settings.(dateFormat := DEFAULT_DATE_FORMAT);
      settings := settings.(openAIModel := OPEN_AI_MODEL_CHOICES[0]);
      settings := settings.(maxTokenSize := OPEN_AI_MODELS_MAX_TOKEN_SIZES[DEFAULT_OPEN_AI_MODEL]);
      ResetLaws(old(settings));
    }
  }

  /** The sizes the summary size field can store. */
  const SUMMARY_SIZES: set<int> := set v | DEFAULT_SUMMARY_SIZE <= v <= MAX_SUMMARY_SIZE
}
