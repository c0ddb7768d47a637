/**
 * The architecture-diagram interactions of js/main.js that are not pure
 * presentation: the service-detail table behind the modal
 * (`getServiceDetails`), the layer panels (`toggleLayerDetails`,
 * `getLayerDetails`) and the hover highlighter (`highlightRelatedServices`,
 * `clearServiceHighlights`).
 */
module Diagram {
  import opened Wrappers
  import opened Dom
  import opened JsObject
  import ServiceType

  // ------------------------------------------------------------ service details

  /** What the modal shows for a service type. */
  datatype ServiceDetails = ServiceDetails(
    description: string,
    features: seq<string>,
    useCases: seq<string>,
    pricing: string)

  const ServiceTable: map<string, ServiceDetails> := map[
    "cloudfront" := ServiceDetails(
      "Amazon CloudFront is a fast content delivery network (CDN) service that securely delivers data, videos, applications, and APIs to customers globally with low latency and high transfer speeds.",
      ["Global edge locations network", "DDoS protection with AWS Shield", "SSL/TLS encryption",
       "Real-time metrics and logging", "Lambda@Edge for customization"],
      ["Static asset delivery for micro frontends", "API response caching",
       "Security headers injection", "Geographic content restriction"],
      "Pay-as-you-go based on data transfer and requests"),
    "apigateway" := ServiceDetails(
      "Amazon API Gateway is a fully managed service that makes it easy for developers to create, publish, maintain, monitor, and secure APIs at any scale.",
      ["RESTful and WebSocket APIs", "Built-in authentication and authorization",
       "Request/response transformation", "Rate limiting and throttling", "Caching capabilities"],
      ["Centralized API management", "Microservice API orchestration",
       "Authentication and authorization", "Request routing and transformation"],
      "Pay per API call plus data transfer charges"),
    "lambda" := ServiceDetails(
      "AWS Lambda is a serverless compute service that lets you run code without provisioning or managing servers.",
      ["Auto-scaling execution", "Built-in fault tolerance", "Support for multiple languages",
       "Integration with AWS services", "Pay-per-invocation pricing"],
      ["Banking API business logic", "Data processing and transformation",
       "Real-time event processing", "Authentication and authorization handlers"],
      "Pay per request and compute time (GB-seconds)"),
    "ecs" := ServiceDetails(
      "Amazon Elastic Container Service (ECS) is a fully managed container orchestration service that supports Docker containers.",
      ["Fargate serverless containers", "Auto scaling and load balancing",
       "Integration with AWS services", "Security and compliance features", "Blue/green deployments"],
      ["Micro frontend hosting", "Containerized microservices", "CI/CD pipeline execution",
       "Development environment isolation"],
      "Pay for underlying EC2 instances or Fargate vCPU/memory"),
    "rds" := ServiceDetails(
      "Amazon Relational Database Service (RDS) makes it easy to set up, operate, and scale a relational database in the cloud.",
      ["Automated backups and snapshots", "Multi-AZ deployment for high availability",
       "Read replicas for scaling", "Performance monitoring", "Security and compliance features"],
      ["Transactional banking data", "User account information", "Financial transaction records",
       "Audit and compliance data"],
      "Pay for instance hours, storage, and data transfer")
  ]

  const FallbackDetails: ServiceDetails :=
    ServiceDetails("AWS service details not available", [], [], "Pricing varies by service")

  /** `getServiceDetails(serviceType)`: the stored record for the five known
      types; for any other type the fallback, whose feature and use-case
      lists are empty. */
  function GetServiceDetails(serviceType: string): (r: ServiceDetails)
    ensures serviceType in ServiceTable ==> r == ServiceTable[serviceType]
    ensures serviceType !in ServiceTable ==> r == FallbackDetails
    ensures r.features == [] <==> serviceType !in ServiceTable
    ensures r.useCases == [] <==> serviceType !in ServiceTable
    ensures serviceType in ServiceTable ==> |r.features| == 5 && |r.useCases| == 4
  {
    OwnOrDefault(ServiceTable, serviceType, FallbackDetails)
  }

  lemma ServiceTableKeys()
    ensures ServiceTable.Keys == {"cloudfront", "apigateway", "lambda", "ecs", "rds"}
  {
  }

  /** The lookup as written, reached from an element whose class attribute
      names an Object.prototype member: the modal gets no detail record. */
  lemma ServiceDetailsOfConstructor()
    ensures ServiceType.GetServiceType("aws-service constructor") == "constructor"
    ensures LookupOr(ServiceTable, "constructor", FallbackDetails) == PrototypeMember("constructor")
  {
    ServiceTypeOfConstructor();
  }

  lemma ServiceTypeOfConstructor()
    ensures ServiceType.GetServiceType("aws-service constructor") == "constructor"
  {
    var names := [ServiceType.Marker, "constructor"];
    assert names[1..] == ["constructor"];
    assert ServiceType.Join(names, ' ') == ServiceType.Marker + [' '] + "constructor";
    assert ServiceType.Marker + [' '] + "constructor" == "aws-service constructor";
    ServiceType.ServiceTypeOfNames(names, 1);
  }

  // -------------------------------------------------------------- layer panels

  const LayerTable: map<string, string> := map[
    "CDN Layer (CloudFront)" := "Handles global content delivery, caching, and DDoS protection for optimal performance.",
    "API Gateway Layer" := "Manages authentication, rate limiting, and request routing to backend services.",
    "Application Layer" := "Hosts micro frontends and orchestrates the user interface components.",
    "Microservices Layer" := "Contains business logic services for banking operations.",
    "Data Layer" := "Manages persistent storage, caching, and data processing."
  ]

  const LayerFallback: string := "Layer details not available"

  /** The text `getLayerDetails` puts in the panel for a layer headed `heading`:
      the fallback exactly when the heading is not one of the five layers. */
  function LayerDescription(heading: string): (r: string)
    ensures heading in LayerTable ==> r == LayerTable[heading]
    ensures r == LayerFallback <==> heading !in LayerTable
    ensures r != ""
  {
    OwnOrDefault(LayerTable, heading, LayerFallback)
  }

  /** `getLayerDetails(layer)`: the panel markup, a paragraph around the description. */
  function GetLayerDetails(heading: string): (r: string)
    ensures |r| == |LayerDescription(heading)| + 7
    ensures r[..3] == "<p>" && r[|r| - 4..] == "</p>"
    ensures r[3..|r| - 4] == LayerDescription(heading)
  {
    "<p>" + LayerDescription(heading) + "</p>"
  }

  /** A `.layer` element: the text of its first `h4` (None when it has none),
      its `.layer-details` panel if one exists, and whether the 10 ms timer
      that reveals a newly created panel is still pending. */
  class Layer {
    const heading: Option<string>
    var panel: Element?
    var revealPending: bool

    ghost predicate Valid()
      reads this
    {
      revealPending ==> panel != null
    }

    constructor (heading: Option<string>, panel: Element?)
      ensures Valid() && this.heading == heading && this.panel == panel && !revealPending
    {
      this.heading := heading;
      this.panel := panel;
      revealPending := false;
    }

    /** `toggleLayerDetails(layer)`. An existing panel has `show` toggled; a
        layer without one gets a new panel, once, with its reveal pending.
        Without an h4, `getLayerDetails` throws before anything is appended:
        `ok` is false and nothing changes. */
    method Toggle() returns (ok: bool)
      requires Valid()
      modifies this, panel
      ensures Valid()
      ensures old(panel) != null ==>
        ok && panel == old(panel) && panel.classes == Toggled(old(panel.classes), "show") &&
        revealPending == old(revealPending) &&
        unchanged(panel`text, panel`borderColor, panel`boxShadow)
      ensures old(panel) == null && heading.None? ==>
        !ok && panel == null && revealPending == old(revealPending)
      ensures old(panel) == null && heading.Some? ==>
        ok && panel != null && fresh(panel) && panel.classes == {"layer-details"} &&
        panel.text == GetLayerDetails(heading.value) && panel.href.None? &&
        panel.borderColor == "" && panel.boxShadow == "" && revealPending
    {
      if panel != null {
        panel.Toggle("show");
        ok := true;
      } else if heading.None? {
        ok := false;
      } else {
        var newDetails := new Element({"layer-details"}, None, GetLayerDetails(heading.value));
        panel := newDetails;
        revealPending := true;
        ok := true;
      }
    }

    /** The reveal timer of a newly created panel fires. */
    method OnRevealTimer()
      requires Valid() && revealPending
      modifies this, panel
      ensures Valid() && panel == old(panel) && !revealPending
      ensures panel.classes == old(panel.classes) + {"show"}
      ensures unchanged(panel`text, panel`borderColor, panel`boxShadow)
    {
      panel.Add("show");
      revealPending := false;
    }

    /** Two clicks on a layer that already has a panel restore its `show` state. */
    method ToggleTwice()
      requires Valid() && panel != null
      modifies this, panel
      ensures Valid() && panel == old(panel) && revealPending == old(revealPending)
      ensures panel.classes == old(panel.classes)
      ensures unchanged(panel`text, panel`borderColor, panel`boxShadow)
    {
      var ok := Toggle();
      ok := Toggle();
      ToggledTwice(old(panel.classes), "show");
    }
  }

  // ---------------------------------------------------------- hover highlights

  /** The relationship table consulted on hover: service type to the classes
      of the elements to highlight. */
  const RelationshipTable: map<string, seq<string>> := map[
    "cloudfront" := ["s3-origin", "apigateway-origin"],
    "apigateway" := ["lambda-integration", "cognito-authorizer"],
    "lambda" := ["database-connection"],
    "ecs" := ["database-connection"]
  ]

  const HighlightBorder: string := "#ff9900"
  const HighlightShadow: string := "0 0 10px rgba(255, 153, 0, 0.3)"

  /** The classes highlighted for `serviceType`: none when the table has no entry. */
  function RelatedClasses(serviceType: string): (r: seq<string>)
    ensures serviceType in RelationshipTable ==> r == RelationshipTable[serviceType]
    ensures r == [] <==> serviceType !in RelationshipTable
  {
    OwnOrDefault(RelationshipTable, serviceType, [])
  }

  /** Some class of `cs` is in `classes`: the element matches `.c` for that `c`. */
  predicate HasAnyClass(classes: set<string>, cs: seq<string>)
  {
    exists k :: 0 <= k < |cs| && cs[k] in classes
  }

  /** `highlightRelatedServices(service)` for a service whose class attribute
      is `className`, over the elements of the page. Exactly the elements
      carrying a related class get the highlight styles; all else is unchanged.
      A type without an entry changes nothing. */
  method HighlightRelatedServices(className: string, page: seq<Element>)
    modifies set e | e in page
    ensures var related := RelatedClasses(ServiceType.GetServiceType(className));
      forall e :: e in page ==>
        if HasAnyClass(e.classes, related)
        then e.borderColor == HighlightBorder && e.boxShadow == HighlightShadow
        else e.borderColor == old(e.borderColor) && e.boxShadow == old(e.boxShadow)
    ensures forall e :: e in page ==> e.classes == old(e.classes) && e.text == old(e.text)
  {
    var related := RelatedClasses(ServiceType.GetServiceType(className));
    var i := 0;
    while i < |related|
      invariant 0 <= i <= |related|
      invariant forall e :: e in page ==> e.classes == old(e.classes) && e.text == old(e.text)
      invariant forall e :: e in page ==>
        if HasAnyClass(e.classes, related[..i])
        then e.borderColor == HighlightBorder && e.boxShadow == HighlightShadow
        else e.borderColor == old(e.borderColor) && e.boxShadow == old(e.boxShadow)
    {
      var c := related[i];
      var j := 0;
      while j < |page|
        invariant 0 <= j <= |page|
        invariant forall e :: e in page ==> e.classes == old(e.classes) && e.text == old(e.text)
        invariant forall e :: e in page ==>
          if HasAnyClass(e.classes, related[..i]) || (c in e.classes && e in page[..j])
          then e.borderColor == HighlightBorder && e.boxShadow == HighlightShadow
          else e.borderColor == old(e.borderColor) && e.boxShadow == old(e.boxShadow)
      {
        var el := page[j];
        if c in el.classes {
          el.borderColor := HighlightBorder;
          el.boxShadow := HighlightShadow;
        }
        assert page[..j + 1] == page[..j] + [el];
        j := j + 1;
      }
      assert page[..|page|] == page;
      forall e | e in page
        ensures HasAnyClass(e.classes, related[..i + 1]) <==>
                (HasAnyClass(e.classes, related[..i]) || c in e.classes)
      {
        AnyClassOfPrefix(e.classes, related, i);
      }
      i := i + 1;
    }
    assert related[..|related|] == related;
  }

  lemma AnyClassOfPrefix(classes: set<string>, cs: seq<string>, i: nat)
    requires i < |cs|
    ensures HasAnyClass(classes, cs[..i + 1]) <==> (HasAnyClass(classes, cs[..i]) || cs[i] in classes)
  {
    var p := cs[..i + 1];
    if cs[i] in classes {
      assert p[i] == cs[i];
    }
    if HasAnyClass(classes, cs[..i]) {
      var k :| 0 <= k < i && cs[..i][k] in classes;
      assert p[k] == cs[..i][k];
    }
  }

  /** `clearServiceHighlights()`: every `.aws-service` element loses its inline
      border colour and shadow; other elements keep theirs. */
  method ClearServiceHighlights(page: seq<Element>)
    modifies set e | e in page
    ensures forall e :: e in page ==>
      if ServiceType.Marker in e.classes
      then e.borderColor == "" && e.boxShadow == ""
      else e.borderColor == old(e.borderColor) && e.boxShadow == old(e.boxShadow)
    ensures forall e :: e in page ==> e.classes == old(e.classes) && e.text == old(e.text)
  {
    var j := 0;
    while j < |page|
      invariant 0 <= j <= |page|
      invariant forall e :: e in page ==> e.classes == old(e.classes) && e.text == old(e.text)
      invariant forall e :: e in page ==>
        if ServiceType.Marker in e.classes && e in page[..j]
        then e.borderColor == "" && e.boxShadow == ""
        else e.borderColor == old(e.borderColor) && e.boxShadow == old(e.boxShadow)
    {
      var el := page[j];
      if ServiceType.Marker in el.classes {
        el.borderColor := "";
        el.boxShadow := "";
      }
      assert page[..j + 1] == page[..j] + [el];
      j := j + 1;
    }
    assert page[..|page|] == page;
  }

  /** Hovering a Lambda service and leaving it again: a related element that
      is not itself an `aws-service` element keeps its highlight, because the
      clear only visits `aws-service` elements. */
  method HighlightOutlivesClear() returns (connection: Element)
    ensures connection.classes == {"database-connection"}
    ensures connection.borderColor == HighlightBorder && connection.boxShadow == HighlightShadow
  {
    connection := new Element({"database-connection"}, None, "");
    ServiceType.ServiceTypeOfTypicalElement();
    assert RelatedClasses("lambda")[0] == "database-connection";
    assert HasAnyClass(connection.classes, RelatedClasses("lambda"));
    HighlightRelatedServices("aws-service lambda", [connection]);
    ClearServiceHighlights([connection]);
  }
}
