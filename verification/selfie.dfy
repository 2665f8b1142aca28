/** The image features: choosing a selfie mode and a scene from the user's
    words, building the image-editing prompt, the scene-photo prompt, and
    the guards that decide whether an image request is made at all.

    The persona's scene descriptions are opaque strings supplied as a
    `ScenePrompts` value. The image service is not called: the functions
    below return the request that would be sent, and the service's answer is
    a parameter. Every keyword table here is a regular expression with the
    `/i` flag whose alternatives are literal words. */
module Selfie {
  import opened Wrappers
  import opened Text
  import opened Keywords

  /** The persona's fixed environment descriptions. */
  datatype ScenePrompts = ScenePrompts(home: string, withCat: string, kitchen: string, bedroom: string, office: string)

  // ---------------------------------------------------------------------
  // Mode

  datatype Mode = Direct | Mirror

  const MirrorKeywords: seq<string> := ["穿", "衣服", "裙子", "外套", "时尚", "全身", "镜子", "outfit", "wearing", "dress"]
  const DirectKeywords: seq<string> := ["咖啡", "餐厅", "海边", "公园", "城市", "近景", "自拍", "脸", "笑", "cafe", "beach", "park"]

  /** `detectMode`: a mirror selfie exactly when the text mentions a mirror
      word and no direct word; direct words take precedence. */
  function DetectMode(context: string): (m: Mode)
    ensures m == Mirror <==> !MentionsAny(context, DirectKeywords, Insensitive) && MentionsAny(context, MirrorKeywords, Insensitive)
  {
    if MentionsAny(context, DirectKeywords, Insensitive) then Direct
    else if MentionsAny(context, MirrorKeywords, Insensitive) then Mirror
    else Direct
  }

  /** A direct word anywhere in the text, in any ASCII case, makes the mode
      direct, whatever mirror words the text also holds. */
  lemma DirectWordWins(a: string, i: int, b: string)
    requires 0 <= i < |DirectKeywords|
    ensures DetectMode(a + DirectKeywords[i] + b) == Direct
  {
    MentionsAnyConcat(a, DirectKeywords, i, b, Insensitive);
  }

  // ---------------------------------------------------------------------
  // Scene of a selfie

  /** The scene table of `inferScene`, in order. */
  function SceneRows(sp: ScenePrompts): seq<Row<string>>
  {
    [ Row(["猫", "团团", "喵", "cat"], sp.withCat),
      Row(["厨房", "做饭", "烘焙", "烤箱", "cook", "bak"], sp.kitchen),
      Row(["床", "睡", "起床", "卧室", "morning", "bed"], sp.bedroom),
      Row(["上班", "办公", "工位", "公司", "iMac", "work", "office"], sp.office),
      Row(["咖啡", "奶茶", "星巴克", "cafe"], "at a cozy cafe" + " with a cup of milk tea"),
      Row(["海边", "沙滩", "beach"], "at the beach" + " with ocean background"),
      Row(["公园", "散步", "park"], "in a beautiful park" + " with trees and flowers"),
      Row(["逛街", "商场", "mall"], "at a shopping mall" + ", holding shopping bags"),
      Row(["穿", "衣服", "裙子", "外套", "outfit"], sp.home + ", showing off her outfit" + " in front of a mirror"),
      Row(["你在干嘛", "干什么", "在做什么"], sp.home + ", relaxing on the cream sofa"),
      Row(["下班"], "walking on a city street" + " in the evening" + ", warm sunset light")
    ]
  }

  /** `inferScene`: the scene of the first row the text mentions, the home
      scene when none does. */
  function InferScene(context: string, sp: ScenePrompts): (r: string)
    ensures FirstRow(SceneRows(sp), context, Insensitive).None? ==> r == sp.home
    ensures FirstRow(SceneRows(sp), context, Insensitive).Some? ==>
              r == SceneRows(sp)[FirstRow(SceneRows(sp), context, Insensitive).value].value
  {
    Classify(SceneRows(sp), context, Insensitive, sp.home)
  }

  /** Upper case "CAT" anywhere selects the cat scene, because the cat row
      comes first and matching ignores ASCII case. */
  lemma UpperCaseCatSelectsCatScene(a: string, b: string, sp: ScenePrompts)
    ensures InferScene(a + "CAT" + b, sp) == sp.withCat
  {
    var t := a + "CAT" + b;
    LowerConcat(a + "CAT", b);
    LowerConcat(a, "CAT");
    assert Lower("CAT") == "cat";
    ContainsConcat(Lower(a), "cat", Lower(b));
    assert Lower("cat") == "cat";
    assert Mentions(t, SceneRows(sp)[0].words[3], Insensitive);
    assert FirstRow(SceneRows(sp), t, Insensitive) == Some(0);
  }

  // ---------------------------------------------------------------------
  // Selfie prompt

  // The templates are comma-separated phrase lists, written here phrase by
  // phrase.

  /** The opening both templates share; the kind of selfie follows it. */
  const SelfieLead: string := "make this same person" + " taking a "
  const MirrorPrefix: string := SelfieLead + "mirror selfie, "
  const CloseUpPrefix: string := SelfieLead + "close-up selfie, "
  /** The closing both templates share. */
  const SelfieTail: string := ", keep the same face and features" + ", no text" + ", no watermark" + ", photorealistic"
  const MirrorSuffix: string := ", full body visible" + ", phone in hand" + SelfieTail
  const CloseUpSuffix: string :=
    ", direct eye contact with camera" + ", sweet smile" + ", phone held at arm's length"
    + ", face clearly visible" + SelfieTail

  /** `buildPrompt`: the scene inferred from the text, framed by the mirror
      template for a mirror selfie and by the close-up template otherwise. */
  function BuildPrompt(context: string, mode: Mode, sp: ScenePrompts): (r: string)
    ensures mode == Mirror ==> MirrorPrefix <= r
    ensures mode == Direct ==> CloseUpPrefix <= r
    ensures Contains(r, InferScene(context, sp))
  {
    var scene := InferScene(context, sp);
    if mode == Mirror then
      ContainsConcat(MirrorPrefix, scene, MirrorSuffix);
      MirrorPrefix + scene + MirrorSuffix
    else
      ContainsConcat(CloseUpPrefix, scene, CloseUpSuffix);
      CloseUpPrefix + scene + CloseUpSuffix
  }

  /** The two templates are told apart by their beginnings, so the prompt
      determines the mode it was built for. */
  lemma PromptDeterminesMode(c1: string, m1: Mode, c2: string, m2: Mode, sp: ScenePrompts)
    requires BuildPrompt(c1, m1, sp) == BuildPrompt(c2, m2, sp)
    ensures m1 == m2
  {
    PromptMark(c1, m1, sp);
    PromptMark(c2, m2, sp);
  }

  /** The character right after the shared opening: 'm' for "mirror", 'c'
      for "close-up". */
  lemma PromptMark(c: string, m: Mode, sp: ScenePrompts)
    ensures |BuildPrompt(c, m, sp)| > |SelfieLead|
    ensures BuildPrompt(c, m, sp)[|SelfieLead|] == (if m == Mirror then 'm' else 'c')
  {
    var p := BuildPrompt(c, m, sp);
    var k := |SelfieLead|;
    if m == Mirror {
      assert MirrorPrefix[k] == 'm';
      assert p[k] == MirrorPrefix[k];
    } else {
      assert CloseUpPrefix[k] == 'c';
      assert p[k] == CloseUpPrefix[k];
    }
  }

  // ---------------------------------------------------------------------
  // Scene photo prompt

  const SceneSuffix: string := ", photorealistic" + ", no text" + ", no watermark"

  predicate EndsWithSceneSuffix(s: string)
  {
    |s| >= |SceneSuffix| && s[|s| - |SceneSuffix|..] == SceneSuffix
  }

  lemma SuffixEnds(x: string)
    ensures EndsWithSceneSuffix(x + SceneSuffix)
  {
    assert (x + SceneSuffix)[|x|..] == SceneSuffix;
  }

  /** The scene table of `inferScenePrompt`, in order. */
  function ScenePhotoRows(sp: ScenePrompts): seq<Row<string>>
  {
    [ Row(["团团", "猫", "喵"],
          "a chubby orange tabby cat" + " with white paws and round amber eyes, " + sp.home
          + ", the cat is sitting on the cream sofa" + " looking adorable" + SceneSuffix),
      Row(["房间", "家", "客厅", "你家"],
          sp.home + ", cozy lived-in apartment" + ", potted plants" + ", photo frames on wall" + SceneSuffix),
      Row(["卧室", "床"], sp.bedroom + ", cozy and tidy" + SceneSuffix),
      Row(["厨房", "做饭", "烘焙", "蛋糕"], sp.kitchen + ", freshly baked pastry on counter" + SceneSuffix),
      Row(["办公", "工位", "公司", "桌"], sp.office + ", a creative designer workspace" + SceneSuffix),
      Row(["窗外", "外面", "风景"],
          "view from a 6th floor apartment window" + ", city rooftop scenery" + ", warm sunset light" + SceneSuffix)
    ]
  }

  /** `inferScenePrompt`: the prompt of the first row the text mentions, the
      home scene with the plain suffix when none does. Every scene prompt
      asks for a photorealistic image without text or watermark. */
  function InferScenePrompt(text: string, sp: ScenePrompts): (r: string)
    ensures FirstRow(ScenePhotoRows(sp), text, Insensitive).None? ==> r == sp.home + SceneSuffix
    ensures FirstRow(ScenePhotoRows(sp), text, Insensitive).Some? ==>
              r == ScenePhotoRows(sp)[FirstRow(ScenePhotoRows(sp), text, Insensitive).value].value
    ensures EndsWithSceneSuffix(r)
  {
    var rows := ScenePhotoRows(sp);
    forall j | 0 <= j < |rows|
      ensures EndsWithSceneSuffix(rows[j].value)
    {
      var x := rows[j].value[..|rows[j].value| - |SceneSuffix|];
      assert rows[j].value == x + SceneSuffix;
      SuffixEnds(x);
    }
    SuffixEnds(sp.home);
    Classify(rows, text, Insensitive, sp.home + SceneSuffix)
  }

  // ---------------------------------------------------------------------
  // Guards and requests

  const DefaultImageModel: string := "doubao-seedream-4-5-251128"

  /** What is posted to the image service: the model, the prompt, and the
      reference images the edit starts from. */
  datatype ImageCall = ImageCall(model: string, prompt: string, referenceImages: seq<string>)

  /** The feature settings: whether an image key is configured, and the
      configured model name if any. */
  datatype Settings = Settings(enabled: bool, modelSetting: Option<string>)

  function ModelName(st: Settings): (r: string)
    ensures st.modelSetting.Some? && st.modelSetting.value != "" ==> r == st.modelSetting.value
    ensures st.modelSetting.None? || st.modelSetting.value == "" ==> r == DefaultImageModel
  {
    if st.modelSetting.Some? && st.modelSetting.value != "" then st.modelSetting.value else DefaultImageModel
  }

  /** The request `generateSelfie` makes: none when the feature is off or the
      reference image cannot be loaded; otherwise the prompt built from the
      text (an absent text reads as empty) with the detected mode, editing
      the reference image. */
  function SelfieCall(st: Settings, reference: Option<string>, context: Option<string>, sp: ScenePrompts): (r: Option<ImageCall>)
    ensures r.None? <==> !st.enabled || reference.None?
    ensures r.Some? ==>
              && r.value.referenceImages == [reference.value]
              && r.value.prompt == BuildPrompt(context.GetOr(""), DetectMode(context.GetOr("")), sp)
              && r.value.model == ModelName(st)
  {
    if !st.enabled then None
    else if reference.None? then None
    else
      var ctx := context.GetOr("");
      Some(ImageCall(ModelName(st), BuildPrompt(ctx, DetectMode(ctx), sp), [reference.value]))
  }

  /** `generateSelfie`: the image address the service returned, or nothing.
      `answer` is the service's answer to the request: an address, or
      nothing for a failed request or an answer without one. */
  function GenerateSelfie(st: Settings, reference: Option<string>, context: Option<string>, sp: ScenePrompts,
                          answer: Option<string>): (r: Option<string>)
    ensures r.Some? ==> st.enabled && reference.Some? && r == answer
    ensures st.enabled && reference.Some? ==> r == answer
  {
    match SelfieCall(st, reference, context, sp)
    case None => None
    case Some(_) => answer
  }

  /** The request `generateScenePhoto` makes: none when the feature is off;
      otherwise a text-only request, never carrying the reference image. */
  function ScenePhotoCall(st: Settings, context: Option<string>, sp: ScenePrompts): (r: Option<ImageCall>)
    ensures r.None? <==> !st.enabled
    ensures r.Some? ==>
              && r.value.referenceImages == []
              && r.value.prompt == InferScenePrompt(context.GetOr(""), sp)
              && r.value.model == ModelName(st)
  {
    if !st.enabled then None
    else Some(ImageCall(ModelName(st), InferScenePrompt(context.GetOr(""), sp), []))
  }

  /** `generateScenePhoto`: the returned address, or nothing. */
  function GenerateScenePhoto(st: Settings, context: Option<string>, sp: ScenePrompts, answer: Option<string>): (r: Option<string>)
    ensures r.Some? ==> st.enabled && r == answer
    ensures st.enabled ==> r == answer
  {
    match ScenePhotoCall(st, context, sp)
    case None => None
    case Some(_) => answer
  }
}
