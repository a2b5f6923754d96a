/** The class table of `KeyedArchive` (src/util.rs). */
module ArchiveClasses {
  import opened Bytes

  datatype ClassData = ClassData(name: string, classes: seq<string>, uidFields: seq<string>)

  const LINK_METADATA := ClassData("LPLinkMetadata",
    ["LPLinkMetadata", "NSObject"],
    ["imageMetadata", "iconMetadata", "originalURL", "URL", "title", "summary", "image", "icon", "images", "icons", "specialization2"])

  const TITLE_STYLE := ClassData("PRPosterTitleStyleConfiguration",
    ["PRPosterTitleStyleConfiguration", "NSObject"],
    ["preferredTitleLayout", "preferredTitleAlignment", "titleColor", "contentsLuminence", "groupName", "timeFontConfiguration", "timeNumberingSystem", "titleContentStyle"])

  const CLASS_SPECS: seq<ClassData> := [
    ClassData("NSMutableDictionary", ["NSMutableDictionary", "NSDictionary", "NSObject"], []),
    ClassData("NSDictionary", ["NSDictionary", "NSObject"], []),
    ClassData("NSURL", ["NSURL", "NSObject"], ["NS.base", "NS.relative"]),
    ClassData("NSMutableData", ["NSMutableData", "NSData", "NSObject"], []),
    ClassData("NSUUID", ["NSUUID", "NSObject"], []),
    ClassData("NSMutableArray", ["NSMutableArray", "NSArray", "NSObject"], ["NS.objects"]),
    LINK_METADATA,
    ClassData("LPPasswordsInviteMetadata",
      ["LPPasswordsInviteMetadata", "LPSpecializationMetadata", "NSObject"],
      ["groupName", "urlParameters"]),
    ClassData("RichLink", ["RichLink", "NSObject"], ["richLinkMetadata"]),
    ClassData("LPImageMetadata", ["LPImageMetadata", "NSObject"], ["size", "URL"]),
    ClassData("LPIconMetadata", ["LPIconMetadata", "NSObject"], ["URL"]),
    ClassData("RichLinkImageAttachmentSubstitute",
      ["RichLinkImageAttachmentSubstitute", "LPImage", "NSObject"],
      ["MIMEType"]),
    ClassData("NSArray", ["NSArray", "NSObject"], ["NS.objects"]),
    TITLE_STYLE,
    ClassData("PRPosterColor", ["PRPosterColor", "NSObject"], ["preferredStyle", "identifier", "color"]),
    ClassData("UIColor", ["UIColor", "NSObject"], []),
    ClassData("PRPosterContentDiscreteColorsStyle", ["PRPosterContentDiscreteColorsStyle", "NSObject"], ["colors"]),
    ClassData("PRPosterContentVibrantMaterialStyle", ["PRPosterContentVibrantMaterialStyle", "NSObject"], []),
    ClassData("PRPosterSystemTimeFontConfiguration",
      ["PRPosterSystemTimeFontConfiguration", "PRPosterTimeFontConfiguration", "NSObject"],
      ["timeFontIdentifier", "weight"]),
    ClassData("PFPosterMedia", ["PFPosterMedia", "NSObject"], ["assetUUID", "editConfiguration", "subpath"]),
    ClassData("PFPosterEditConfiguration",
      ["PFPosterEditConfiguration", "NSObject"],
      ["style", "visibleFrame", "landscapeVisibleFrame"]),
    ClassData("PFParallaxLayerStyle",
      ["PFParallaxLayerStyle", "NSObject"],
      ["kind", "colorSuggestions", "parameters"]),
    ClassData("PFParallaxColor", ["PFParallaxColor", "NSObject"], ["rgbValues"]),
    ClassData("PFWallpaperCompoundDeviceConfiguration",
      ["PFWallpaperCompoundDeviceConfiguration", "NSObject"],
      ["portrait", "landscape"]),
    ClassData("PFParallaxLayoutConfiguration",
      ["PFParallaxLayoutConfiguration", "NSObject"],
      ["inactiveTimeRect", "timeRect", "screenSize", "parallaxPadding"]),
    ClassData("PFPosterConfiguration",
      ["PFPosterConfiguration", "NSObject"],
      ["media", "layoutConfiguration", "editConfiguration", "identifier", "userInfo"]),
    ClassData("PRPosterContentGradientStyle",
      ["PRPosterContentGradientStyle", "NSObject"],
      ["colors", "startPoint", "locations", "endPoint"])
  ]

  /** The first entry with this name. */
  function FindSpec(specs: seq<ClassData>, name: string): (r: Option<ClassData>)
    ensures r.Some? ==> r.value in specs && r.value.name == name
    ensures r.None? <==> forall i :: 0 <= i < |specs| ==> specs[i].name != name
  {
    if specs == [] then None
    else if specs[0].name == name then Some(specs[0])
    else FindSpec(specs[1..], name)
  }

  /** No field is listed twice, and the class reference is not among them. */
  ghost predicate FieldsDistinct(c: ClassData) {
    Pairwise(c.uidFields) && "$class" !in c.uidFields
  }

  ghost predicate Pairwise(names: seq<string>) {
    forall i, j :: 0 <= i < j < |names| ==> names[i] != names[j]
  }

  ghost predicate AllDistinct(specs: seq<ClassData>) {
    forall i :: 0 <= i < |specs| ==> FieldsDistinct(specs[i])
  }

  lemma SpecsDistinct()
    ensures AllDistinct(CLASS_SPECS)
  {
    FirstSpecsDistinct();
    LinkMetadataDistinct();
    MiddleSpecsDistinct();
    TitleStyleDistinct();
    LastSpecsDistinct();
    assert CLASS_SPECS[6] == LINK_METADATA && CLASS_SPECS[13] == TITLE_STYLE;
  }

  lemma FirstSpecsDistinct()
    ensures forall i :: 0 <= i < 6 ==> FieldsDistinct(CLASS_SPECS[i])
  {
  }

  lemma LinkMetadataDistinct()
    ensures FieldsDistinct(LINK_METADATA)
  {
    LinkMetadataPairwise();
  }

  lemma LinkMetadataPairwise()
    ensures Pairwise(LINK_METADATA.uidFields)
  {
  }

  lemma TitleStyleDistinct()
    ensures FieldsDistinct(TITLE_STYLE)
  {
  }

  lemma MiddleSpecsDistinct()
    ensures forall i :: 7 <= i < 13 ==> FieldsDistinct(CLASS_SPECS[i])
  {
  }

  lemma LastSpecsDistinct()
    ensures forall i :: 14 <= i < 27 ==> FieldsDistinct(CLASS_SPECS[i])
  {
  }
}
