/**
  The generation service: turning the text model's reply into a subject
  list, building one cover prompt and one page prompt per subject, pairing
  each prompt with its image request, and the lazily created chat session
  behind the chat widget. The remote models are not part of this model: their
  answers and failures are parameters.
 */
module GeminiService {
  import opened Wrappers
  import opened JsStrings

  const MaxSubjects: nat := 5

  const TextModel: string := "gemini-2.5-flash"
  const ImageModel: string := "imagen-4.0-generate-001"

  /** The style directive that ends every image prompt. */
  const PromptStyle: string := "simple, cute cartoon style for a child's coloring book, very thick and clean black outlines, black and white, no color, no shading, minimal background."

  const Quote: string := "\""

  function Quoted(s: string): string {
    Quote + s + Quote
  }

  /** The text around the theme in the subject request. */
  const SubjectLead: string := "List 5 distinct and simple subjects for a children's coloring book about "
  const SubjectTail: string := ". Examples: a single character, an object, a simple scene. Just the list, comma separated."

  /** The request sent to the text model for the subject list. */
  function SubjectPrompt(theme: string): (p: string)
    ensures Contains(p, Quoted(theme))
  {
    ContainsMiddle(SubjectLead, Quoted(theme), SubjectTail);
    SubjectLead + Quoted(theme) + SubjectTail
  }

  /** The subjects read from the text model's reply: the comma-separated
      pieces, each trimmed, in order, empty ones kept, at most five. */
  function ParseSubjects(reply: string): (subjects: seq<string>)
    ensures 1 <= |subjects| <= MaxSubjects
    ensures |subjects| == if Count(reply, ',') + 1 < MaxSubjects then Count(reply, ',') + 1 else MaxSubjects
    ensures forall i :: 0 <= i < |subjects| ==> TrimOf(subjects[i], Split(reply, ',')[i])
    ensures forall i :: 0 <= i < |subjects| ==> ',' !in subjects[i]
  {
    var pieces := Split(reply, ',');
    var trimmed := seq(|pieces|, i requires 0 <= i < |pieces| => Trim(pieces[i]));
    TrimmedPiecesLack(pieces, ',');
    if |trimmed| <= MaxSubjects then trimmed else trimmed[..MaxSubjects]
  }

  lemma TrimmedPiecesLack(pieces: seq<string>, c: char)
    requires forall i :: 0 <= i < |pieces| ==> c !in pieces[i]
    ensures forall i :: 0 <= i < |pieces| ==> c !in Trim(pieces[i])
  {
    forall i | 0 <= i < |pieces|
      ensures c !in Trim(pieces[i])
    {
      TrimAddsNothing(pieces[i], c);
    }
  }

  /** The pieces the subjects were cut from are exactly the reply's pieces:
      joined back with commas they give the reply. */
  lemma SubjectsComeFromReply(reply: string)
    ensures var pieces := Split(reply, ',');
      && Join(pieces, ',') == reply
      && forall i :: 0 <= i < |ParseSubjects(reply)| ==> TrimOf(ParseSubjects(reply)[i], pieces[i])
  {
    JoinSplit(reply, ',');
  }

  /** A reply with no comma gives one subject, the trimmed reply. */
  lemma {:induction false} NoCommaOneSubject(reply: string)
    requires ',' !in reply
    ensures ParseSubjects(reply) == [Trim(reply)]
  {
    ParseJoined([reply]);
    assert Join([reply], ',') == reply;
  }

  /** Comma-free pieces joined with commas parse back to the first five of
      them, each trimmed. Fewer than five stay fewer: nothing is added. */
  lemma {:induction false} ParseJoined(pieces: seq<string>)
    requires 1 <= |pieces|
    requires forall i :: 0 <= i < |pieces| ==> ',' !in pieces[i]
    ensures var n := if |pieces| < MaxSubjects then |pieces| else MaxSubjects;
      ParseSubjects(Join(pieces, ',')) == seq(n, i requires 0 <= i < n => Trim(pieces[i]))
  {
    SplitJoin(pieces, ',');
  }

  /** The fixed text of the cover and page prompts, in order of appearance. */
  const CoverLead: string := "Coloring book cover"
  const NameLead: string := " for a child named "
  const ThemeLead: string := ". The theme is "
  const TitleLead: string := ". The title should say "
  const TitleTail: string := "'s Coloring Book"
  const StyleLead: string := ". "
  const PageLead: string := "Coloring book page featuring a "

  /** The facts about a four-hole template that the prompt contracts use,
      proved once for any text in the holes. */
  lemma TemplateFacts(a0: string, a1: string, w: string, b: string, x: string, c: string, y: string, d: string, z: string)
    ensures var p := a0 + a1 + w + b + x + c + y + d + z;
      && StartsWith(p, a0)
      && Contains(p, w) && Contains(p, x) && Contains(p, y) && EndsWith(p, z)
  {
    var p := a0 + a1 + w + b + x + c + y + d + z;
    assert StartsWith(p, a0) by {
      assert p == a0 + (a1 + w + b + x + c + y + d + z);
      StartsWithConcat(a0, a1 + w + b + x + c + y + d + z);
    }
    assert Contains(p, w) by {
      assert p == (a0 + a1) + w + (b + x + c + y + d + z);
      ContainsMiddle(a0 + a1, w, b + x + c + y + d + z);
    }
    assert Contains(p, x) by {
      assert p == (a0 + a1 + w + b) + x + (c + y + d + z);
      ContainsMiddle(a0 + a1 + w + b, x, c + y + d + z);
    }
    assert Contains(p, y) by {
      assert p == (a0 + a1 + w + b + x + c) + y + (d + z);
      ContainsMiddle(a0 + a1 + w + b + x + c, y, d + z);
    }
    EndsWithConcat(a0 + a1 + w + b + x + c + y + d, z);
  }

  /** The same for a two-hole template. */
  lemma ShortTemplateFacts(a: string, w: string, b: string, x: string, d: string, z: string)
    ensures var p := a + w + b + x + d + z;
      StartsWith(p, a + w) && Contains(p, x) && EndsWith(p, z)
  {
    var p := a + w + b + x + d + z;
    assert p == (a + w) + (b + x + d + z);
    StartsWithConcat(a + w, b + x + d + z);
    assert p == (a + w + b) + x + (d + z);
    ContainsMiddle(a + w + b, x, d + z);
    EndsWithConcat(a + w + b + x + d, z);
  }

  /** The prompt for the book's cover. */
  function CoverPrompt(childName: string, theme: string): (p: string)
    ensures StartsWith(p, CoverLead)
  {
    StartsWithConcat(CoverLead, NameLead + Quoted(childName) + ThemeLead + Quoted(theme)
      + TitleLead + Quoted(childName + TitleTail) + StyleLead + PromptStyle);
    CoverLead + NameLead + Quoted(childName) + ThemeLead + Quoted(theme)
      + TitleLead + Quoted(childName + TitleTail) + StyleLead + PromptStyle
  }

  /** The cover prompt quotes the child's name, the book title built from it,
      and the theme, and it ends with the style directive. */
  lemma CoverPromptShape(childName: string, theme: string)
    ensures var p := CoverPrompt(childName, theme);
      && StartsWith(p, CoverLead)
      && Contains(p, Quoted(childName))
      && Contains(p, Quoted(childName + TitleTail))
      && Contains(p, Quoted(theme))
      && EndsWith(p, PromptStyle)
  {
    TemplateFacts(CoverLead, NameLead, Quoted(childName), ThemeLead, Quoted(theme),
                  TitleLead, Quoted(childName + TitleTail), StyleLead, PromptStyle);
  }

  /** The prompt for the page of one subject. */
  function PagePrompt(subject: string, theme: string): (p: string)
    ensures StartsWith(p, PageLead + subject)
  {
    StartsWithConcat(PageLead + subject, ThemeLead + Quoted(theme) + StyleLead + PromptStyle);
    PageLead + subject + ThemeLead + Quoted(theme) + StyleLead + PromptStyle
  }

  /** The page prompt names the subject right after its lead, quotes the
      theme, and ends with the style directive. */
  lemma PagePromptShape(subject: string, theme: string)
    ensures var p := PagePrompt(subject, theme);
      StartsWith(p, PageLead + subject) && Contains(p, Quoted(theme)) && EndsWith(p, PromptStyle)
  {
    ShortTemplateFacts(PageLead, subject, ThemeLead, Quoted(theme), StyleLead, PromptStyle);
  }

  /** For one theme, the page prompt determines its subject. */
  lemma PagePromptInjective(s1: string, s2: string, theme: string)
    requires PagePrompt(s1, theme) == PagePrompt(s2, theme)
    ensures s1 == s2
  {
    var p := PagePrompt(s1, theme);
    assert |s1| == |s2|;
    assert p[|PageLead|..|PageLead| + |s1|] == s1;
    assert PagePrompt(s2, theme)[|PageLead|..|PageLead| + |s2|] == s2;
  }

  /** No page prompt is ever mistaken for the cover prompt. */
  lemma CoverIsNoPage(childName: string, theme: string, subject: string)
    ensures CoverPrompt(childName, theme) != PagePrompt(subject, theme)
  {
    var cover := CoverPrompt(childName, theme);
    var page := PagePrompt(subject, theme);
    assert cover[14] == CoverLead[14] == 'c';
    assert page[14] == PageLead[14] == 'p';
  }

  /** The cover prompt followed by one page prompt per subject, in order. */
  function BuildPrompts(theme: string, childName: string, subjects: seq<string>): (prompts: seq<string>)
    ensures |prompts| == 1 + |subjects|
    ensures prompts[0] == CoverPrompt(childName, theme)
    ensures forall i :: 1 <= i < |prompts| ==> prompts[i] == PagePrompt(subjects[i - 1], theme)
  {
    var pages := seq(|subjects|, i requires 0 <= i < |subjects| => PagePrompt(subjects[i], theme));
    var prompts := [CoverPrompt(childName, theme)] + pages;
    assert forall i :: 1 <= i < |prompts| ==> prompts[i] == pages[i - 1];
    prompts
  }

  /** Every prompt, the cover's and each page's, ends with the style directive. */
  lemma PromptsEndWithStyle(theme: string, childName: string, subjects: seq<string>)
    ensures var prompts := BuildPrompts(theme, childName, subjects);
      forall i :: 0 <= i < |prompts| ==> EndsWith(prompts[i], PromptStyle)
  {
    var prompts := BuildPrompts(theme, childName, subjects);
    CoverPromptShape(childName, theme);
    forall i | 1 <= i < |prompts|
      ensures EndsWith(prompts[i], PromptStyle)
    {
      PagePromptShape(subjects[i - 1], theme);
    }
  }

  /** The image request issued for one prompt. */
  datatype ImageRequest = ImageRequest(model: string, prompt: string)

  /** What `generateColoringPages` returns for each prompt: the prompt and the
      image request started for it. */
  datatype PageGeneration = PageGeneration(prompt: string, generation: ImageRequest)

  /** A request to the text model: the model's name and the contents. */
  datatype TextRequest = TextRequest(model: string, contents: string)

  /** The request for the subject list: the subject prompt, sent to the text
      model. */
  function SubjectRequest(theme: string): (q: TextRequest)
    ensures q.model == TextModel && q.contents == SubjectPrompt(theme)
  {
    TextRequest(TextModel, SubjectPrompt(theme))
  }

  /** The pages built from the text model's answer `reply`: two to six
      entries, the cover first, each carrying its prompt unchanged and an
      image request for that prompt. */
  function PagesFor(theme: string, childName: string, reply: string): (pages: seq<PageGeneration>)
    ensures 2 <= |pages| <= 1 + MaxSubjects
    ensures |pages| == 1 + |ParseSubjects(reply)|
    ensures pages[0].prompt == CoverPrompt(childName, theme)
    ensures forall i :: 1 <= i < |pages| ==> pages[i].prompt == PagePrompt(ParseSubjects(reply)[i - 1], theme)
    ensures forall i :: 0 <= i < |pages| ==> pages[i].generation == ImageRequest(ImageModel, pages[i].prompt)
  {
    var subjects := ParseSubjects(reply);
    var prompts := BuildPrompts(theme, childName, subjects);
    seq(|prompts|, i requires 0 <= i < |prompts| => PageGeneration(prompts[i], ImageRequest(ImageModel, prompts[i])))
  }

  /** `generateColoringPages`. `generateContent` is the text model: `None`
      when its promise rejects or its answer has no text, which makes
      `generateColoringPages` reject; otherwise the pages are built from the
      answer to the subject request. */
  function GenerateColoringPages(theme: string, childName: string, generateContent: TextRequest -> Option<string>)
    : (r: Option<seq<PageGeneration>>)
    ensures r.None? <==> generateContent(SubjectRequest(theme)).None?
    ensures r.Some? ==> r.value == PagesFor(theme, childName, generateContent(SubjectRequest(theme)).value)
  {
    match generateContent(SubjectRequest(theme))
    case None => None
    case Some(reply) => Some(PagesFor(theme, childName, reply))
  }

  /** The cover and the pages are told apart by their prompts: only entry 0
      carries the cover prompt. */
  lemma OnlyFirstIsCover(theme: string, childName: string, reply: string, i: nat)
    requires 1 <= i < |PagesFor(theme, childName, reply)|
    ensures PagesFor(theme, childName, reply)[i].prompt != CoverPrompt(childName, theme)
  {
    CoverIsNoPage(childName, theme, ParseSubjects(reply)[i - 1]);
  }

  const ChatInstruction: string := "You are a friendly and creative helper for a children's coloring book app. Keep your answers short, fun, and kid-friendly."

  /** The reply given when sending a chat message fails. */
  const ChatFallback: string := "Oops! I'm having a little trouble thinking right now. Please try again in a moment!"

  /** The settings a chat session is created with. */
  datatype ChatSettings = ChatSettings(model: string, systemInstruction: string)

  const DefaultChat: ChatSettings := ChatSettings(TextModel, ChatInstruction)

  /** The outcome of `sendMessage` on the remote session. */
  datatype SendResult = Replied(text: string) | SendFailed

  /** How the promise returned by `getChatbotResponse` settles. */
  datatype ChatResponse = Resolved(text: string) | Rejected

  /** The module-level chat session: created on first use and kept. */
  class ChatClient {
    var chatInstance: Option<ChatSettings>
    /** How many sessions have been created. */
    ghost var creations: nat
    /** The messages handed to the session, in order. */
    ghost var forwarded: seq<string>

    ghost predicate Valid()
      reads this
    {
      && creations <= 1
      && (chatInstance.Some? <==> creations == 1)
      && (chatInstance.Some? ==> chatInstance.value == DefaultChat)
    }

    constructor ()
      ensures Valid() && chatInstance == None && forwarded == []
    {
      chatInstance := None;
      creations := 0;
      forwarded := [];
    }

    /** `getChatbotResponse`: creates the session if there is none
        (`createOk` says whether creating it succeeds), then forwards
        `message`; a failed send resolves to the fallback text. The promise
        rejects only when creating the session fails. */
    method GetChatbotResponse(message: string, createOk: bool, sent: SendResult) returns (r: ChatResponse)
      requires Valid()
      modifies this
      ensures Valid()
      ensures r.Rejected? <==> old(chatInstance).None? && !createOk
      ensures r.Rejected? ==> chatInstance == None && forwarded == old(forwarded)
      ensures r.Resolved? ==> chatInstance == Some(DefaultChat) && forwarded == old(forwarded) + [message]
      ensures r.Resolved? ==> r.text == if sent.Replied? then sent.text else ChatFallback
      ensures old(chatInstance).Some? ==> creations == old(creations)
    {
      if chatInstance.None? {
        if !createOk {
          return Rejected;
        }
        chatInstance := Some(DefaultChat);
        creations := creations + 1;
      }
      forwarded := forwarded + [message];
      match sent
      case Replied(text) => r := Resolved(text);
      case SendFailed => r := Resolved(ChatFallback);
    }
  }
}
