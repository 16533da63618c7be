/** The route table of src/routes.tsx, as data: the header's navigation is
    computed from it. The page elements are not modelled. */
module Routes {

  datatype RouteConfig = RouteConfig(name: string, path: string, visible: bool)

  const AppRoutes: seq<RouteConfig> := [
    RouteConfig("Home", "/", true),
    RouteConfig("Explore", "/explore", true),
    RouteConfig("Categories", "/categories", true),
    RouteConfig("Login", "/login", false),
    RouteConfig("Not Found", "*", false)
  ]
}
