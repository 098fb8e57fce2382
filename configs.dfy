/** The configuration record read from terraview.yaml. Loading it (YAML,
    file reading, the lock-guarded global) is outside the model; callers
    pass an `Option<Config>`, `None` standing for "no configuration loaded". */
module Configs {

  /** One `important_attributes` entry: a resource type and the attribute
      names to show for it. */
  datatype ImportantAttribute = ImportantAttribute(name: string, attributes: seq<string>)

  /** `grouping_elements` and `important_attributes`. */
  datatype Config = Config(groupingElements: seq<string>, importantAttributes: seq<ImportantAttribute>)
}
