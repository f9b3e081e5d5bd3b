/**
 * The `MyeongTaeLanding` object: the active locale and the loaded
 * dictionaries, the document parts it rewrites, and the contact form's
 * submit handler.
 */
module Landing {
  import opened Wrappers
  import opened Translation
  import opened Content
  import opened Locale
  import opened Validation

  /** The parts of the document the script writes. */
  class Page {
    /** Elements carrying `data-key`, in document order, with their text. */
    var texts: seq<Bound>
    /** Elements carrying `data-key-placeholder`, with their placeholder. */
    var placeholders: seq<Bound>
    /** The `lang` attribute of the root element. */
    var lang: string
    /** The text of the `#lang-btn` button. */
    var langButton: string

    constructor(texts: seq<Bound>, placeholders: seq<Bound>, lang: string, langButton: string)
      ensures this.texts == texts && this.placeholders == placeholders
      ensures this.lang == lang && this.langButton == langButton
    {
      this.texts := texts;
      this.placeholders := placeholders;
      this.lang := lang;
      this.langButton := langButton;
    }
  }

  /** A banner appended to the form after a submission. */
  datatype Notice = Success | Failure(text: string)

  /** The submit button's label while the form is being sent. */
  const SendingLabel := "전송 중..."

  /** The text of the error banner. */
  const SendFailedText := "문의 전송 중 오류가 발생했습니다. 다시 시도해주세요."

  /** The submit button: whether it is disabled, and its label. */
  datatype ButtonState = ButtonState(disabled: bool, text: string)

  /** `form.reset()`: every control back to its (empty) default value. */
  function Reset(fields: seq<Field>): seq<Field> {
    seq(|fields|, i requires 0 <= i < |fields| => fields[i].(value := ""))
  }

  /** A reset form fails validation again as soon as it has a required field. */
  lemma ResetFormIsIncomplete(fields: seq<Field>, j: nat)
    requires j < |fields| && fields[j].required
    ensures Required(fields[j].name) in FormErrors(Reset(fields))
  {
    BlankRequiredFieldReported(Reset(fields), j);
  }

  /** The contact form: its controls, the field errors and banners it shows,
      and its submit button. */
  class ContactForm {
    var fields: seq<Field>
    /** The messages `showFieldError` placed next to the fields. */
    var shownErrors: seq<FieldError>
    /** The banners appended by `showSuccessMessage` and `showErrorMessage`. */
    var notices: seq<Notice>
    var submit: ButtonState
    /** Every state the submit button has been put in, oldest first. */
    ghost var submitHistory: seq<ButtonState>

    constructor(fields: seq<Field>, submitLabel: string)
      ensures this.fields == fields && shownErrors == [] && notices == []
      ensures submit == ButtonState(false, submitLabel) && submitHistory == []
    {
      this.fields := fields;
      shownErrors := [];
      notices := [];
      submit := ButtonState(false, submitLabel);
      submitHistory := [];
    }
  }

  class MyeongTaeLanding {
    const page: Page
    /** The active locale code. */
    var currentLang: string
    /** The loaded dictionaries by locale code; empty until both are loaded. */
    var translations: map<string, Tree>

    /** The locale is one of the two codes, and either no dictionary or
        both dictionaries are loaded. */
    ghost predicate Valid()
      reads this
    {
      && Supported(currentLang)
      && (translations == map[] || translations.Keys == {"ko", "en"})
    }

    /** `this.translations[this.currentLang]` is truthy: a dictionary is
        loaded for the active locale and it is not the empty string. */
    predicate HasDictionary()
      reads this
    {
      currentLang in translations && Truthy(Of(translations[currentLang]))
    }

    /** The state the constructor sets before `init` loads anything. */
    constructor(page: Page)
      ensures Valid() && this.page == page
      ensures currentLang == "ko" && translations == map[]
    {
      this.page := page;
      currentLang := "ko";
      translations := map[];
    }

    /** `loadLanguageData` once both fetches have settled: `fetched` holds
        the Korean and English dictionaries, or `None` when a fetch or a
        parse failed. */
    method LoadLanguageData(fetched: Option<(Tree, Tree)>)
      requires Valid()
      modifies this`translations, page
      ensures Valid() && currentLang == old(currentLang)
      ensures fetched.None? ==> translations == old(translations) && unchanged(page)
      ensures fetched.Some? ==> translations == map["ko" := fetched.value.0, "en" := fetched.value.1]
      ensures fetched.Some? && !HasDictionary() ==> unchanged(page)
      ensures fetched.Some? && HasDictionary() ==>
        && page.texts == Translated(old(page.texts), translations[currentLang])
        && page.placeholders == Translated(old(page.placeholders), translations[currentLang])
        && page.lang == currentLang
        && page.langButton == old(page.langButton)
    {
      if fetched.Some? {
        translations := map["ko" := fetched.value.0, "en" := fetched.value.1];
        UpdatePageContent();
      }
    }

    /** The language button's click listener. */
    method SwitchLanguage()
      requires Valid()
      modifies this`currentLang, page
      ensures Valid() && translations == old(translations)
      ensures currentLang == SwitchedCode(old(currentLang))
      ensures page.langButton == LanguageLabel(currentLang)
      ensures HasDictionary() ==>
        && page.texts == Translated(old(page.texts), translations[currentLang])
        && page.placeholders == Translated(old(page.placeholders), translations[currentLang])
        && page.lang == currentLang
      ensures !HasDictionary() ==>
        page.texts == old(page.texts) && page.placeholders == old(page.placeholders) && page.lang == old(page.lang)
    {
      currentLang := if currentLang == "ko" then "en" else "ko";
      UpdatePageContent();
      UpdateLanguageButton();
    }

    /** `updatePageContent`: without a truthy dictionary for the active
        locale nothing changes; otherwise every bound element whose key has a truthy
        translation shows it, and the document takes the locale's code. */
    method UpdatePageContent()
      modifies page
      ensures !HasDictionary() ==> unchanged(page)
      ensures HasDictionary() ==>
        && page.texts == Translated(old(page.texts), translations[currentLang])
        && page.placeholders == Translated(old(page.placeholders), translations[currentLang])
        && page.lang == currentLang
        && page.langButton == old(page.langButton)
    {
      if currentLang !in translations || !Truthy(Of(translations[currentLang])) {
        return;
      }
      var currentTranslations := translations[currentLang];

      var i := 0;
      while i < |page.texts|
        invariant i <= |page.texts| == |old(page.texts)|
        invariant forall j :: 0 <= j < i ==> page.texts[j] == ApplyTranslation(old(page.texts)[j], currentTranslations)
        invariant forall j :: i <= j < |page.texts| ==> page.texts[j] == old(page.texts)[j]
        invariant page.placeholders == old(page.placeholders)
        invariant page.lang == old(page.lang) && page.langButton == old(page.langButton)
      {
        var element := page.texts[i];
        var translation := GetNestedValue(currentTranslations, element.key);
        if Truthy(translation) {
          page.texts := page.texts[i := element.(content := Rendered(translation))];
        }
        i := i + 1;
      }

      i := 0;
      while i < |page.placeholders|
        invariant i <= |page.placeholders| == |old(page.placeholders)|
        invariant forall j :: 0 <= j < i ==> page.placeholders[j] == ApplyTranslation(old(page.placeholders)[j], currentTranslations)
        invariant forall j :: i <= j < |page.placeholders| ==> page.placeholders[j] == old(page.placeholders)[j]
        invariant page.texts == Translated(old(page.texts), currentTranslations)
        invariant page.lang == old(page.lang) && page.langButton == old(page.langButton)
      {
        var element := page.placeholders[i];
        var translation := GetNestedValue(currentTranslations, element.key);
        if Truthy(translation) {
          page.placeholders := page.placeholders[i := element.(content := Rendered(translation))];
        }
        i := i + 1;
      }

      page.lang := currentLang;
    }

    /** `updateLanguageButton`. */
    method UpdateLanguageButton()
      modifies page
      ensures page.langButton == LanguageLabel(currentLang)
      ensures page.texts == old(page.texts) && page.placeholders == old(page.placeholders)
      ensures page.lang == old(page.lang)
    {
      if currentLang == "ko" {
        page.langButton := "KO / EN";
      } else {
        page.langButton := "EN / KO";
      }
    }

    /** `handleFormSubmit`: validates; on failure shows the field errors and
        stops. Otherwise disables the button under the sending label, runs
        the send (which throws when `bodyThrows`), shows a banner, and in
        every case re-enables the button with its original label. */
    method HandleFormSubmit(form: ContactForm, bodyThrows: bool)
      modifies form
      ensures form.shownErrors == FormErrors(old(form.fields))
      ensures FormErrors(old(form.fields)) != [] ==>
        && form.fields == old(form.fields) && form.notices == old(form.notices)
        && form.submit == old(form.submit) && form.submitHistory == old(form.submitHistory)
      ensures FormErrors(old(form.fields)) == [] ==>
        && form.submit == ButtonState(false, old(form.submit.text))
        && form.submitHistory == old(form.submitHistory)
             + [ButtonState(true, SendingLabel), ButtonState(false, old(form.submit.text))]
        && form.notices == old(form.notices) + [if bodyThrows then Failure(SendFailedText) else Success]
        && form.fields == if bodyThrows then old(form.fields) else Reset(old(form.fields))
    {
      var isValid, errors := ValidateForm(form.fields);
      form.shownErrors := errors;
      if !isValid {
        return;
      }

      var originalText := form.submit.text;
      form.submit := ButtonState(true, SendingLabel);
      form.submitHistory := form.submitHistory + [form.submit];

      if bodyThrows {
        form.notices := form.notices + [Failure(SendFailedText)];
      } else {
        form.notices := form.notices + [Success];
        form.fields := Reset(form.fields);
      }

      form.submit := ButtonState(false, originalText);
      form.submitHistory := form.submitHistory + [form.submit];
    }
  }
}
