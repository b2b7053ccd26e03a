/**
 * The toolbar of the older injected converter: closure variables for the current text and
 * the `disabled` flags of its five export buttons, the `All` button (the whole sitemap) and
 * the `Start Here` button (the node whose id is the page's shortId), both generating the
 * titled markup.
 */
module LegacyToolbar {
  import opened Wrappers
  import opened Sitemap
  import opened LevelFlatten
  import opened TreeSearch
  import Toolbar
  import TitledMarkup

  class Converter {
    /** `project.name` and `$axure.document.sitemap.rootNodes`, read once when the converter starts. */
    const projectName: string
    const sitemapArray: seq<Node>

    var currentMermaidText: string
    var txtDisabled: bool
    var svgUrlDisabled: bool
    var svgDownloadDisabled: bool
    var pngUrlDisabled: bool
    var pngDownloadDisabled: bool

    /** Every export button is enabled. */
    predicate ExportsEnabled()
      reads this
    {
      !txtDisabled && !svgUrlDisabled && !svgDownloadDisabled && !pngUrlDisabled && !pngDownloadDisabled
    }

    /** Every export button is disabled, as the buttons are created. */
    predicate ExportsDisabled()
      reads this
    {
      txtDisabled && svgUrlDisabled && svgDownloadDisabled && pngUrlDisabled && pngDownloadDisabled
    }

    /** `initializeSitemapConverter()`: no text yet, the five export buttons created with `disabled: true`. */
    constructor(name: string, sitemap: seq<Node>)
      ensures projectName == name && sitemapArray == sitemap
      ensures currentMermaidText == "" && ExportsDisabled()
    {
      projectName := name;
      sitemapArray := sitemap;
      currentMermaidText := "";
      txtDisabled := true;
      svgUrlDisabled := true;
      svgDownloadDisabled := true;
      pngUrlDisabled := true;
      pngDownloadDisabled := true;
    }

    /** `enableExportButtons()`: clears the five flags and nothing else. */
    method EnableExportButtons()
      modifies this
      ensures ExportsEnabled() && currentMermaidText == old(currentMermaidText)
    {
      txtDisabled := false;
      svgUrlDisabled := false;
      svgDownloadDisabled := false;
      pngUrlDisabled := false;
      pngDownloadDisabled := false;
    }

    /** The `All` button: the whole sitemap, flattened from level 1, becomes the text; the text is copied. */
    method AllClick(supply: nat -> string) returns (effects: seq<Toolbar.Effect>)
      modifies this
      ensures currentMermaidText == TitledMarkup.Markup(projectName, Flatten(sitemapArray, 1, None, 0, supply))
      ensures ExportsEnabled()
      ensures effects == [Toolbar.Clipboard(currentMermaidText)]
    {
      var processedNodes := ProcessSitemap(sitemapArray, 1, None, [], supply);
      assert processedNodes == Flatten(sitemapArray, 1, None, 0, supply);
      currentMermaidText := TitledMarkup.GenerateMermaidMarkup(projectName, processedNodes);
      effects := [Toolbar.Clipboard(currentMermaidText)];
      EnableExportButtons();
    }

    /**
     * The `Start Here` button: the first node in pre-order whose id is the page's shortId
     * (compared with `===`, so an absent shortId finds an id-less node) is flattened alone and
     * becomes the text; when there is none nothing changes.
     */
    method StartHereClick(shortId: Option<string>, supply: nat -> string) returns (effects: seq<Toolbar.Effect>)
      modifies this
      ensures var selected := FirstWithId(Flat(sitemapArray), shortId);
        if selected.Some? then
          && currentMermaidText == TitledMarkup.Markup(projectName, Flatten([selected.value], 1, None, 0, supply))
          && ExportsEnabled()
          && effects == [Toolbar.Clipboard(currentMermaidText)]
        else
          && currentMermaidText == old(currentMermaidText)
          && txtDisabled == old(txtDisabled) && svgUrlDisabled == old(svgUrlDisabled)
          && svgDownloadDisabled == old(svgDownloadDisabled) && pngUrlDisabled == old(pngUrlDisabled)
          && pngDownloadDisabled == old(pngDownloadDisabled)
          && effects == []
    {
      effects := [];
      var selectedNode := FindCurrentNode(sitemapArray, shortId);
      if selectedNode.Some? {
        var processedNodes := ProcessSitemap([selectedNode.value], 1, None, [], supply);
        assert processedNodes == Flatten([selectedNode.value], 1, None, 0, supply);
        currentMermaidText := TitledMarkup.GenerateMermaidMarkup(projectName, processedNodes);
        effects := [Toolbar.Clipboard(currentMermaidText)];
        EnableExportButtons();
      }
    }
  }
}
