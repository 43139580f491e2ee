/** The values the skill-map parser works with: the markdown-like
    sections it cuts the text into, and the maps, activities, rewards and
    page metadata it builds from them. */
module SkillMapTypes {
  import opened Wrappers

  /** `#`, `##`, or three and more `#`. */
  datatype HeaderKind = Single | Double | Triple

  /** A `MarkdownSection`: a header line and the `- key: value` bullets
      under it. */
  datatype Section = Section(headerKind: HeaderKind, header: string, attributes: map<string, string>)

  /** An entry of a map's `required` list: "complete `numberCompleted`
      activities tagged `tag`", or "complete the map `mapId`". */
  datatype Prerequisite =
    | TagPrerequisite(tag: string, numberCompleted: nat)
    | MapPrerequisite(mapId: string)

  datatype Editor = Py | Blocks | Js

  /** A node of a map. The source's `next` array holds the nodes that
      `nextIds` names, in order; here a node refers to them by id, and the
      map's `activities` resolves the ids. */
  datatype MapNode =
    | Activity(activityId: string, imageUrl: Option<string>, displayName: string, nextIds: seq<string>,
               description: Option<string>, url: string, tags: seq<string>, allowCodeCarryover: bool,
               activityType: string, editor: Option<Editor>)
    | Reward(activityId: string, imageUrl: Option<string>, displayName: string, nextIds: seq<string>,
             kind: string)

  /** The map-level attributes, as `inflateSkillMap` builds them. */
  datatype MapHeader = MapHeader(mapId: string, displayName: string, description: Option<string>,
                                 completionUrl: Option<string>, prerequisites: seq<Prerequisite>,
                                 allowCodeCarryover: bool)

  /** A built map: its header, every node by id, and the first node. */
  datatype SkillMap = SkillMap(header: MapHeader, activities: map<string, MapNode>, root: MapNode)

  datatype PageMetadata = PageMetadata(title: string, description: Option<string>, infoUrl: Option<string>)

  /** Why parsing stops: the source's `error(...)` calls, and the
      TypeErrors it runs into on an input it does not expect. */
  datatype ParseError =
    | DuplicateActivity(activityId: string, mapId: string)
    | UnknownActivity(activityId: string, mapId: string)
    | LoopInMap(mapId: string)
    | MissingUrl(activityId: string)
    | MissingType(activityId: string)
    /** A map with no nodes: there is no root to search for loops from. */
    | EmptyMap(mapId: string)
    /** A `required` part the prerequisite pattern does not match. */
    | MalformedRequirement(part: string)
    /** No `##` section: there is no map header to build from. */
    | NoMapHeader
}
