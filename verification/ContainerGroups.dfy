/** The container groups of an infra provider, by name, with the instance id each is tagged with. */
module ContainerGroups {
  type Groups = map<string, string>

  /** The guard of a delete request: a recorded instance id must be the tag of the group; without
      one, which is written as the empty string, any group of that name passes. */
  predicate GuardPasses(groups: Groups, name: string, instanceId: string) {
    name in groups && (instanceId == "" || groups[name] == instanceId)
  }

  function Delete(groups: Groups, name: string, instanceId: string): Groups {
    if GuardPasses(groups, name, instanceId) then groups - {name} else groups
  }

  /** The request that creates a group replaces one that has the name by then. */
  function CreateOrUpdate(groups: Groups, name: string, id: string): Groups { groups[name := id] }

  /** Looking first and creating at once: a group that is there is used as it is. */
  function GetOrCreate(groups: Groups, name: string, id: string): Groups {
    if name in groups then groups else CreateOrUpdate(groups, name, id)
  }
}
