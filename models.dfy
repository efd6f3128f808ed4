/** The resource descriptors. The source has a base class with four common
    properties and one subclass per kind whose constructor fixes the `Type`
    string; here that is one record with a kind-specific payload. A fresh
    descriptor of each kind is the base default with the subclass's tag and
    the subclass's own defaults. */
module ResourceModels {

  import opened Ascii

  /** An RGBA palette entry. */
  datatype Color = Color(r: Byte, g: Byte, b: Byte, a: Byte)

  /** The `Color(r, g, b, a = 255)` constructor. */
  function NewColor(r: Byte, g: Byte, b: Byte, a: Byte := 255): (c: Color)
    ensures c.r == r && c.g == g && c.b == b && c.a == a
  {
    Color(r, g, b, a)
  }

  datatype Payload =
    | Plain
    | Image(width: Int32, height: Int32, colorDepth: Int32, hasPalette: bool)
    | Video(frameCount: Int32, duration: Int32, frameRate: Int32)
    | Audio(duration: Int32, sampleRate: Int32, channels: Int32)
    | Text(textLines: seq<string>)
    | Palette(colors: seq<Color>)

  datatype ResourceModel = ResourceModel(
    name: string,
    typeName: string,
    size: Int64,
    filePath: string,
    payload: Payload)

  /** The `Type` string each subclass's constructor assigns. */
  function TypeNameOf(p: Payload): string {
    match p
    case Plain => ""
    case Image(_, _, _, _) => "Image"
    case Video(_, _, _) => "Video"
    case Audio(_, _, _) => "Audio"
    case Text(_) => "Text"
    case Palette(_) => "Palette"
  }

  /** The `Type` property agrees with the kind of the payload. */
  predicate WellTagged(r: ResourceModel) {
    r.typeName == TypeNameOf(r.payload)
  }

  /** `new ResourceModel()`: empty strings and size zero. */
  function NewResourceModel(): (r: ResourceModel)
    ensures r.name == "" && r.typeName == "" && r.filePath == "" && r.size == 0
    ensures WellTagged(r)
  {
    ResourceModel("", "", 0, "", Plain)
  }

  function NewImageResource(): (r: ResourceModel)
    ensures WellTagged(r) && r.typeName == "Image"
  {
    NewResourceModel().(typeName := "Image", payload := Image(0, 0, 0, false))
  }

  function NewVideoResource(): (r: ResourceModel)
    ensures WellTagged(r) && r.typeName == "Video"
  {
    NewResourceModel().(typeName := "Video", payload := Video(0, 0, 0))
  }

  function NewAudioResource(): (r: ResourceModel)
    ensures WellTagged(r) && r.typeName == "Audio"
  {
    NewResourceModel().(typeName := "Audio", payload := Audio(0, 0, 0))
  }

  /** A fresh text resource starts with an empty list of lines. */
  function NewTextResource(): (r: ResourceModel)
    ensures WellTagged(r) && r.typeName == "Text" && r.payload == Text([])
  {
    NewResourceModel().(typeName := "Text", payload := Text([]))
  }

  /** A fresh palette starts with no colours. */
  function NewPaletteResource(): (r: ResourceModel)
    ensures WellTagged(r) && r.typeName == "Palette" && r.payload == Palette([])
  {
    NewResourceModel().(typeName := "Palette", payload := Palette([]))
  }

  /** The five subclass tags are distinct, so the tag alone tells the kind:
      two well-tagged descriptors with the same tag have the same kind of
      payload. */
  lemma TagDeterminesKind(x: ResourceModel, y: ResourceModel)
    requires WellTagged(x) && WellTagged(y) && x.typeName == y.typeName
    ensures x.payload.Plain? <==> y.payload.Plain?
    ensures x.payload.Image? <==> y.payload.Image?
    ensures x.payload.Video? <==> y.payload.Video?
    ensures x.payload.Audio? <==> y.payload.Audio?
    ensures x.payload.Text? <==> y.payload.Text?
    ensures x.payload.Palette? <==> y.payload.Palette?
  {
  }

  /** Every fresh descriptor keeps the base defaults for the common fields. */
  lemma FreshDescriptorsAreEmpty()
    ensures forall r :: r in [NewImageResource(), NewVideoResource(), NewAudioResource(),
                              NewTextResource(), NewPaletteResource()]
              ==> r.name == "" && r.filePath == "" && r.size == 0 && WellTagged(r)
  {
  }

  lemma ColorAlphaDefaultsOpaque(r: Byte, g: Byte, b: Byte)
    ensures NewColor(r, g, b).a == 255
  {
  }
}
