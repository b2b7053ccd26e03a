/**
 * The bundled toolbar's button state and click flow: the buttons made from `BUTTONS`
 * (export buttons start disabled), the handler table keyed by button type and key, the
 * full-sitemap and start-here generation, and `enableExportButtons`. The generated text
 * is kept in `currentMermaidText`; the clipboard and the export services are effects the
 * click hands back.
 */
module Toolbar {
  import opened Wrappers
  import opened Sitemap
  import opened LevelFlatten
  import opened TreeSearch
  import LinesMarkup

  /** One entry of `BUTTONS`: its key, its label and its type. */
  datatype ButtonConfig = ButtonConfig(key: string, text: string, buttonType: string)

  const Generate: string := "generate"

  /** `BUTTONS`, in the order `Object.entries` lists it. */
  const ButtonConfigs: seq<ButtonConfig> := [
    ButtonConfig("all", "Full", "generate"),
    ButtonConfig("startHere", "From Here", "generate"),
    ButtonConfig("copy", "Copy", "copy"),
    ButtonConfig("txtDownload", "TXT", "download"),
    ButtonConfig("svgUrl", "SVG", "url"),
    ButtonConfig("svgDownload", "SVG", "download"),
    ButtonConfig("pngUrl", "PNG", "url"),
    ButtonConfig("pngDownload", "PNG", "download")
  ]

  /** A button element: its label, its `data-button-type` and its `disabled` flag. */
  datatype Button = Button(text: string, buttonType: string, disabled: bool)

  /** A property of the `buttons` object: a key and its button, in insertion order. */
  datatype Entry = Entry(key: string, button: Button)

  /** What a click hands to the outside: the clipboard, a text download, or an SVG or PNG export (downloaded or opened). */
  datatype Effect = Clipboard(text: string) | TxtDownload(text: string) | SvgExport(text: string, download: bool)
                  | PngExport(text: string, download: bool)

  /** The handlers of the table. */
  datatype Action = All | StartHere | Copy | TxtFile | SvgFile | PngFile | SvgLink | PngLink

  /** What the host page supplies to start-here: `$axure.page.shortId`, the `id` and `p` url parameters, the root nodes. */
  datatype Page = Page(shortId: Option<string>, idParam: Option<string>, pageParam: Option<string>, rootNodes: seq<Node>)

  /** `handlers[type]?.[key]`: the handler for a button type and key, if the table has one. */
  function Handler(buttonType: string, key: string): (h: Option<Action>)
    ensures h.Some? ==> buttonType in {"generate", "copy", "download", "url"}
  {
    if buttonType == "generate" then
      if key == "all" then Some(All) else if key == "startHere" then Some(StartHere) else None
    else if buttonType == "copy" then
      if key == "copy" then Some(Copy) else None
    else if buttonType == "download" then
      if key == "txtDownload" then Some(TxtFile) else if key == "svgDownload" then Some(SvgFile)
      else if key == "pngDownload" then Some(PngFile) else None
    else if buttonType == "url" then
      if key == "svgUrl" then Some(SvgLink) else if key == "pngUrl" then Some(PngLink) else None
    else None
  }

  /** The handler table has an entry for exactly the (type, key) pairs of the configured buttons. */
  lemma HandlerTable(buttonType: string, key: string)
    ensures Handler(buttonType, key).Some? <==>
      exists i :: 0 <= i < |ButtonConfigs| && ButtonConfigs[i].key == key && ButtonConfigs[i].buttonType == buttonType
  {
    var cs := ButtonConfigs;
    if Handler(buttonType, key).Some? {
      var i := if key == "all" then 0 else if key == "startHere" then 1 else if key == "copy" then 2
        else if key == "txtDownload" then 3 else if key == "svgUrl" then 4 else if key == "svgDownload" then 5
        else if key == "pngUrl" then 6 else 7;
      assert cs[i].key == key && cs[i].buttonType == buttonType;
    }
  }

  /** The button created for a configuration: disabled unless its type is `generate`. */
  function Created(c: ButtonConfig): Button
  {
    Button(c.text, c.buttonType, c.buttonType != Generate)
  }

  /** The configured keys are distinct, so the reduce adds one property per entry. */
  lemma ConfigKeysDistinct()
    ensures forall i, j :: 0 <= i < j < |ButtonConfigs| ==> ButtonConfigs[i].key != ButtonConfigs[j].key
  {
  }

  /** `createButtons()`: one button per configuration, in configuration order. */
  method CreateButtons() returns (buttons: seq<Entry>)
    ensures |buttons| == |ButtonConfigs|
    ensures forall i :: 0 <= i < |buttons| ==> buttons[i] == Entry(ButtonConfigs[i].key, Created(ButtonConfigs[i]))
  {
    buttons := [];
    for i := 0 to |ButtonConfigs|
      invariant |buttons| == i
      invariant forall j :: 0 <= j < i ==> buttons[j] == Entry(ButtonConfigs[j].key, Created(ButtonConfigs[j]))
    {
      var config := ButtonConfigs[i];
      buttons := buttons + [Entry(config.key, Button(config.text, config.buttonType, config.buttonType != "generate"))];
    }
  }

  /** The button after `enableExportButtons`: a non-generate button is enabled, a generate button is left as it is. */
  function Enabled(b: Button): Button
  {
    if b.buttonType != Generate then b.(disabled := false) else b
  }

  /** Every button of the object after `enableExportButtons`. */
  function EnableAll(bs: seq<Entry>): (r: seq<Entry>)
    ensures |r| == |bs|
  {
    seq(|bs|, i requires 0 <= i < |bs| => Entry(bs[i].key, Enabled(bs[i].button)))
  }

  /**
   * `enableExportButtons` enables the non-generate buttons, and changes nothing else: no
   * key, label or type, and no generate button's flag.
   */
  lemma EnableAllMeaning(bs: seq<Entry>)
    ensures forall i :: 0 <= i < |bs| ==>
      && EnableAll(bs)[i].key == bs[i].key
      && EnableAll(bs)[i].button.text == bs[i].button.text
      && EnableAll(bs)[i].button.buttonType == bs[i].button.buttonType
      && (EnableAll(bs)[i].button.disabled <==> bs[i].button.disabled && bs[i].button.buttonType == Generate)
  {
  }

  /** Enabling twice is enabling once. */
  lemma EnableAllIdempotent(bs: seq<Entry>)
    ensures EnableAll(EnableAll(bs)) == EnableAll(bs)
  {
    var once, twice := EnableAll(bs), EnableAll(EnableAll(bs));
    forall i | 0 <= i < |bs| ensures twice[i] == once[i] {
      assert once[i].button.buttonType == bs[i].button.buttonType;
    }
  }

  /** After the first generation every created button is enabled: generate buttons start enabled. */
  lemma CreatedThenEnabled(bs: seq<Entry>)
    requires |bs| == |ButtonConfigs|
    requires forall i :: 0 <= i < |bs| ==> bs[i] == Entry(ButtonConfigs[i].key, Created(ButtonConfigs[i]))
    ensures forall i :: 0 <= i < |bs| ==> !EnableAll(bs)[i].button.disabled
  {
    forall i | 0 <= i < |bs| ensures !EnableAll(bs)[i].button.disabled {
      assert bs[i].button == Created(ButtonConfigs[i]);
    }
  }

  /**
   * The id start-here looks for: the page's shortId, else the `id` parameter, else (with a
   * truthy `p` parameter) what `findNodeByUrl` finds for it.
   */
  function StartId(page: Page): Option<string>
  {
    if Truthy(page.shortId) then page.shortId
    else if Truthy(page.idParam) || !Truthy(page.pageParam) then page.idParam
    else UrlLookup(page.rootNodes, page.pageParam.value)
  }

  /** The node start-here generates from, found in pre-order among the sitemap's nodes, if any. */
  function Selected(sitemapArray: seq<Node>, page: Page): Option<Node>
  {
    var id := StartId(page);
    if Truthy(id) then FirstWithId(Flat(sitemapArray), id) else None
  }

  /** The selected node is the first node in pre-order carrying the start id, and that id is truthy. */
  lemma SelectedMeaning(sitemapArray: seq<Node>, page: Page)
    requires Selected(sitemapArray, page).Some?
    ensures Truthy(StartId(page))
    ensures exists k: nat :: FirstAt(Flat(sitemapArray), StartId(page), k) && Flat(sitemapArray)[k] == Selected(sitemapArray, page).value
  {
    var flat, id := Flat(sitemapArray), StartId(page);
    FirstWithIdMeaning(flat, id);
    var found := FirstWithId(flat, id);
    assert Selected(sitemapArray, page) == found;
    var k :| 0 <= k < |flat| && flat[k] == found.value && flat[k].id == id && forall j :: 0 <= j < k ==> flat[j].id != id;
    assert FirstAt(flat, id, k);
  }

  class Toolbar {
    var sitemapArray: seq<Node>
    var currentMermaidText: string
    var buttons: seq<Entry>

    /** `new Toolbar(processor, sitemapArray)`: no text yet, the buttons as created. */
    constructor(sitemap: seq<Node>)
      ensures sitemapArray == sitemap && currentMermaidText == ""
      ensures |buttons| == |ButtonConfigs|
      ensures forall i :: 0 <= i < |buttons| ==> buttons[i] == Entry(ButtonConfigs[i].key, Created(ButtonConfigs[i]))
    {
      var created := CreateButtons();
      sitemapArray := sitemap;
      currentMermaidText := "";
      buttons := created;
    }

    /** `enableExportButtons()`: the loop over the buttons' values. */
    method EnableExportButtons()
      modifies this
      ensures buttons == EnableAll(old(buttons))
      ensures sitemapArray == old(sitemapArray) && currentMermaidText == old(currentMermaidText)
    {
      ghost var before := buttons;
      for i := 0 to |buttons|
        invariant |buttons| == |before|
        invariant forall j :: 0 <= j < i ==> buttons[j] == EnableAll(before)[j]
        invariant forall j :: i <= j < |buttons| ==> buttons[j] == before[j]
        invariant sitemapArray == old(sitemapArray) && currentMermaidText == old(currentMermaidText)
      {
        var button := buttons[i].button;
        if button.buttonType != "generate" {
          buttons := buttons[i := Entry(buttons[i].key, button.(disabled := false))];
        }
      }
    }

    /** `handleAllClick()`: the whole sitemap, flattened from level 1, becomes the text; the text is copied. */
    method HandleAllClick(supply: nat -> string) returns (effects: seq<Effect>)
      modifies this
      ensures sitemapArray == old(sitemapArray)
      ensures currentMermaidText == LinesMarkup.Markup(Flatten(sitemapArray, 1, None, 0, supply))
      ensures buttons == EnableAll(old(buttons))
      ensures effects == [Clipboard(currentMermaidText)]
    {
      var processedNodes := ProcessSitemap(sitemapArray, 1, None, [], supply);
      assert processedNodes == Flatten(sitemapArray, 1, None, 0, supply);
      currentMermaidText := LinesMarkup.GenerateMermaidMarkup(processedNodes);
      effects := [Clipboard(currentMermaidText)];
      EnableExportButtons();
    }

    /**
     * `handleStartHereClick()`: the selected node alone, flattened from level 1, becomes the
     * text; without a truthy id or a node carrying it nothing changes.
     */
    method HandleStartHereClick(page: Page, supply: nat -> string) returns (effects: seq<Effect>)
      modifies this
      ensures sitemapArray == old(sitemapArray)
      ensures var selected := Selected(old(sitemapArray), page);
        if selected.Some? then
          && currentMermaidText == LinesMarkup.Markup(Flatten([selected.value], 1, None, 0, supply))
          && buttons == EnableAll(old(buttons))
          && effects == [Clipboard(currentMermaidText)]
        else
          && currentMermaidText == old(currentMermaidText) && buttons == old(buttons)
          && effects == []
    {
      effects := [];
      var currentId := page.shortId;
      if !(currentId.Some? && currentId.value != "") {
        currentId := page.idParam;
      }
      if !(currentId.Some? && currentId.value != "") {
        var pageParam := page.pageParam;
        if pageParam.Some? && pageParam.value != "" {
          currentId := FindNodeByUrl(page.rootNodes, pageParam.value);
        }
      }
      assert currentId == StartId(page);
      if currentId.Some? && currentId.value != "" {
        var selectedNode := FindCurrentNode(sitemapArray, currentId);
        if selectedNode.Some? {
          var processedNodes := ProcessSitemap([selectedNode.value], 1, None, [], supply);
          assert processedNodes == Flatten([selectedNode.value], 1, None, 0, supply);
          currentMermaidText := LinesMarkup.GenerateMermaidMarkup(processedNodes);
          effects := [Clipboard(currentMermaidText)];
          EnableExportButtons();
        }
      }
    }

    /** `handleButtonClick(key, type)`: runs the table's handler for the pair; a pair missing from the table does nothing. */
    method HandleButtonClick(key: string, buttonType: string, page: Page, supply: nat -> string) returns (effects: seq<Effect>)
      modifies this
      ensures sitemapArray == old(sitemapArray)
      ensures Handler(buttonType, key).None? ==>
        currentMermaidText == old(currentMermaidText) && buttons == old(buttons) && effects == []
      ensures Handler(buttonType, key) == Some(All) ==>
        && currentMermaidText == LinesMarkup.Markup(Flatten(sitemapArray, 1, None, 0, supply))
        && buttons == EnableAll(old(buttons))
        && effects == [Clipboard(currentMermaidText)]
      ensures Handler(buttonType, key) == Some(StartHere) ==>
        var selected := Selected(old(sitemapArray), page);
        if selected.Some? then
          && currentMermaidText == LinesMarkup.Markup(Flatten([selected.value], 1, None, 0, supply))
          && buttons == EnableAll(old(buttons))
          && effects == [Clipboard(currentMermaidText)]
        else
          && currentMermaidText == old(currentMermaidText) && buttons == old(buttons)
          && effects == []
      ensures Handler(buttonType, key) == Some(Copy) ==>
        currentMermaidText == old(currentMermaidText) && buttons == old(buttons) && effects == [Clipboard(currentMermaidText)]
      ensures Handler(buttonType, key) == Some(TxtFile) ==>
        currentMermaidText == old(currentMermaidText) && buttons == old(buttons) && effects == [TxtDownload(currentMermaidText)]
      ensures Handler(buttonType, key) in {Some(SvgFile), Some(SvgLink)} ==>
        currentMermaidText == old(currentMermaidText) && buttons == old(buttons) &&
        effects == [SvgExport(currentMermaidText, Handler(buttonType, key) == Some(SvgFile))]
      ensures Handler(buttonType, key) in {Some(PngFile), Some(PngLink)} ==>
        currentMermaidText == old(currentMermaidText) && buttons == old(buttons) &&
        effects == [PngExport(currentMermaidText, Handler(buttonType, key) == Some(PngFile))]
    {
      var handler := Handler(buttonType, key);
      if handler.None? {
        return [];
      }
      match handler.value {
        case All => effects := HandleAllClick(supply);
        case StartHere => effects := HandleStartHereClick(page, supply);
        case Copy => effects := [Clipboard(currentMermaidText)];
        case TxtFile => effects := [TxtDownload(currentMermaidText)];
        case SvgFile => effects := [SvgExport(currentMermaidText, true)];
        case PngFile => effects := [PngExport(currentMermaidText, true)];
        case SvgLink => effects := [SvgExport(currentMermaidText, false)];
        case PngLink => effects := [PngExport(currentMermaidText, false)];
      }
    }
  }
}
