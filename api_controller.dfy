/** The version-1 search API endpoint: a before-filter that admits only
    whitelisted affiliates, the search action that always asks for ten results
    per page, and the mapping from the `index` parameter to the vertical under
    which the search impression is logged. Database lookups, the search itself,
    impression logging and rendering are outside the model: their results are
    parameters, and a rendered response is a value stored on the request. */
module ApiController {
  import opened Common

  /** `DEFAULT_API_PER_PAGE`: the page size every API search uses. */
  const DefaultApiPerPage: int := 10

  /** The search engine a whitelisted affiliate is switched to. */
  const Bing: string := "Bing"

  datatype Vertical = Web | News | Image | Docs

  /** `get_vertical`: the vertical a search on the given index belongs to. */
  function GetVertical(index: Option<string>): (v: Vertical)
    ensures v == News <==> index == Some("news") || index == Some("videonews")
    ensures v == Image <==> index == Some("images")
    ensures v == Docs <==> index == Some("docs")
    ensures v == Web <==> index !in {Some("news"), Some("videonews"), Some("images"), Some("docs")}
  {
    match index
    case Some("news") => News
    case Some("videonews") => News
    case Some("images") => Image
    case Some("docs") => Docs
    case _ => Web
  }

  /** A request parameter as Ruby sees it: present as a string, or nil. */
  function ParamValue(params: map<string, string>, key: string): Option<string>
  {
    if key in params then Some(params[key]) else None
  }

  /** A value in the search options hash. */
  datatype Value = Nil | Text(text: string) | Number(n: int)

  function ToValue(v: Option<string>): Value {
    match v
    case None => Nil
    case Some(s) => Text(s)
  }

  /** The keys the search action writes over the affiliate's default options. */
  const OverriddenKeys: set<string> := {"format", "index", "per_page", "lat_lon"}

  /** The options of the search action: the options derived from the affiliate
      and the parameters (`base`, computed by a helper outside this model),
      merged with the format, index and location taken from the parameters and
      a fixed page size. As in Ruby's `Hash#merge`, the right-hand side wins. */
  function SearchOptions(base: map<string, Value>, params: map<string, string>): (opts: map<string, Value>)
    ensures opts.Keys == base.Keys + OverriddenKeys
    ensures opts["per_page"] == Number(DefaultApiPerPage)
    ensures opts["format"] == ToValue(ParamValue(params, "format"))
    ensures opts["index"] == ToValue(ParamValue(params, "index"))
    ensures opts["lat_lon"] == ToValue(ParamValue(params, "lat_lon"))
    ensures forall k :: k in base && k !in OverriddenKeys ==> opts[k] == base[k]
  {
    base + map[
      "format" := ToValue(ParamValue(params, "format")),
      "index" := ToValue(ParamValue(params, "index")),
      "per_page" := Number(DefaultApiPerPage),
      "lat_lon" := ToValue(ParamValue(params, "lat_lon"))]
  }

  /** Whatever `per_page` the caller or the affiliate's defaults ask for, the
      API search uses ten. */
  lemma PerPageIsAlwaysTen(base: map<string, Value>, params: map<string, string>)
    ensures "per_page" in SearchOptions(base, params)
    ensures SearchOptions(base, params)["per_page"] == Number(10)
  {
  }

  /** The affiliate record; only its name and search engine matter here. */
  class Affiliate {
    var name: string
    var searchEngine: string

    constructor (name: string, searchEngine: string)
      ensures this.name == name && this.searchEngine == searchEngine
    {
      this.name := name;
      this.searchEngine := searchEngine;
    }
  }

  datatype Response = Response(status: int, body: string)

  const NotFound: Response := Response(404, "Not Found")

  /** `Affiliate.find_by_name`, over a directory of affiliates keyed by name. */
  function FindByName(directory: map<string, Affiliate>, name: string): Affiliate?
  {
    if name in directory then directory[name] else null
  }

  /** One controller instance, which serves one request. */
  class ApiRequest {
    var affiliate: Affiliate?
    var response: Option<Response>
    var searchOptions: map<string, Value>

    constructor ()
      ensures affiliate == null && response == None && searchOptions == map[]
    {
      affiliate := null;
      response := None;
      searchOptions := map[];
    }

    /** The `load_affiliate` before-filter. When the `affiliate` parameter is
        present, the affiliate of that name is looked up (otherwise `@affiliate`
        keeps its value). A found affiliate whose name is a whitelisted API
        handle is switched to Bing and the request proceeds; in every other case
        the response is 404 "Not Found" and the filter halts the request. */
    method LoadAffiliate(affiliateParam: Option<string>, directory: map<string, Affiliate>,
                         whitelist: set<string>) returns (proceed: bool)
      modifies this, affiliate, directory.Values
      ensures affiliate == if Present(affiliateParam) then FindByName(directory, affiliateParam.value)
                           else old(affiliate)
      ensures proceed <==> affiliate != null && affiliate.name in whitelist
      ensures proceed ==> affiliate.searchEngine == Bing && unchanged(affiliate`name)
      ensures proceed ==> response == old(response)
      ensures !proceed ==> response == Some(NotFound)
      ensures !proceed && affiliate != null ==> unchanged(affiliate)
      ensures searchOptions == old(searchOptions)
      ensures forall a :: a in directory.Values && a != affiliate ==> unchanged(a)
      ensures old(affiliate) != null && old(affiliate) != affiliate ==> unchanged(old(affiliate))
    {
      if Present(affiliateParam) {
        affiliate := FindByName(directory, affiliateParam.value);
      }
      if affiliate != null && affiliate.name in whitelist {
        affiliate.searchEngine := Bing;
        proceed := true;
      } else {
        response := Some(NotFound);
        proceed := false;
      }
    }

    /** The `search` action: builds the search options and reports the vertical
        under which the impression is logged. Running the search and rendering
        its results are outside the model. */
    method Search(base: map<string, Value>, params: map<string, string>) returns (vertical: Vertical)
      modifies this
      ensures searchOptions == SearchOptions(base, params)
      ensures searchOptions["per_page"] == Number(DefaultApiPerPage)
      ensures vertical == GetVertical(ParamValue(params, "index"))
      ensures affiliate == old(affiliate) && response == old(response)
    {
      searchOptions := SearchOptions(base, params);
      vertical := GetVertical(ParamValue(params, "index"));
    }

    /** A search request: the before-filter, then the action only if the filter
        let the request through. */
    method Handle(params: map<string, string>, directory: map<string, Affiliate>,
                  whitelist: set<string>, base: map<string, Value>) returns (logged: Option<Vertical>)
      modifies this, affiliate, directory.Values
      ensures affiliate == if Present(ParamValue(params, "affiliate"))
                           then FindByName(directory, params["affiliate"]) else old(affiliate)
      ensures logged.Some? <==> affiliate != null && affiliate.name in whitelist
      ensures logged.Some? ==> affiliate.searchEngine == Bing
      ensures logged.Some? ==> searchOptions == SearchOptions(base, params)
      ensures logged.Some? ==> logged.value == GetVertical(ParamValue(params, "index"))
      ensures logged.Some? ==> response == old(response)
      ensures logged.None? ==> response == Some(NotFound) && searchOptions == old(searchOptions)
      ensures logged.Some? ==> unchanged(affiliate`name)
      ensures logged.None? && affiliate != null ==> unchanged(affiliate)
      ensures forall a :: a in directory.Values && a != affiliate ==> unchanged(a)
      ensures old(affiliate) != null && old(affiliate) != affiliate ==> unchanged(old(affiliate))
    {
      var proceed := LoadAffiliate(ParamValue(params, "affiliate"), directory, whitelist);
      if proceed {
        var vertical := Search(base, params);
        logged := Some(vertical);
      } else {
        logged := None;
      }
    }
  }

  /** A fresh request without an `affiliate` parameter is always turned away. */
  method MissingAffiliateIsNotFound(params: map<string, string>, directory: map<string, Affiliate>,
                                    whitelist: set<string>, base: map<string, Value>)
    returns (request: ApiRequest, logged: Option<Vertical>)
    requires "affiliate" !in params
    modifies directory.Values
    ensures logged == None && request.response == Some(NotFound)
    ensures request.affiliate == null && request.searchOptions == map[]
    ensures forall a :: a in directory.Values ==> unchanged(a)
  {
    request := new ApiRequest();
    logged := request.Handle(params, directory, whitelist, base);
  }
}
