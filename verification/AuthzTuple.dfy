/** One row of authz.tuple: `objectType:objectId#relation @ subjectType:subjectId[#subjectRelation]`. */
module AuthzTuple {

  datatype Tuple = Tuple(
    objectType: string,
    objectId: string,
    relation: string,
    subjectType: string,
    subjectId: string,
    subjectRelation: string)  // "" is a direct subject, anything else a userset subject
}
