# FCollada document-object core in Dafny

This project models the generic document-object layer of FCollada, the COLLADA 1.4.1
import/export library, and proves properties of that model. It covers:

- **The extra-data tree** (`extra.dfy`, module `ExtraTree`). This is the tree of
  `<extra>`/`<technique profile=…>` elements: `Extra` → `EType` → `ETechnique` → `ENode` →
  attribute and child nodes.
  - Each class keeps a ghost abstract value (`Tree`, `Contents`) in its `Valid()` invariant.
  - Types and techniques are find-or-create, so there is at most one per name or profile.
  - Attributes are upserted under a sanitised name.
  - Setting content drops every child.
  - Clone is a deep, order-preserving copy. It is defined on the abstract values and proved to
    copy a well-formed tree exactly.
- **Entity naming** (`entity.dfy`, module `Entities`). This covers the 512-character name
  sanitiser and the entity's name, note, lazy asset, `FindDaeId` and `Clone`.
- **Library lookup** (`document_libraries.dfy`, module `DocumentLibraries`). `FindEntity` is a
  first hit over the document's fifteen libraries in their fixed order.
- **Entity references** (`entity_reference.dfy`, module `EntityReferences`). This models the
  lazy pointer-by-id with its `entity`, `entityId` and `placeHolder` fields.
  - The placeholders, which stand for external documents, are counted by the references that
    depend on them.
  - The manager drops a placeholder once its last reference leaves it.
- **The document** (`document.dfy`, module `Documents`). This covers the animated-value
  registry, the layer list, the physics-scene root references, and the visual-scene root that
  takes the first visual scene added.
- **Polygon face and hole bookkeeping** (`polygons.dfy`, module `GeometryPolygons`). It works
  on the face-vertex count list and the ascending hole list.
  - The model has hole counts, offsets, ordered hole insertion and the poly-type test.
  - `AddFace` and `RemoveFace` move the index buffers of the inputs, which are kept as `array`s.
- **Effect-parameter lookup** (`effect_tools.dfy`, module `EffectTools`). These are the
  first-match and collect-all searches by semantic or by reference.
  - The searches fall back through geometry instance → material instance → material → effect →
    profiles → FX techniques or the texture sets of a `profile_COMMON` standard profile.
  - The model also has the precedence logic that links and reads animated or default
    `profile_COMMON` parameters. Parameter values are opaque.
- **Controller chains** (`controllers.dfy`, module `Controllers`). This covers:
  - skin and morph controllers, which exclude each other;
  - the walk along base targets to the base geometry and to its last controller;
  - morph targets, which are filtered by similarity to the base geometry.

`common.dfy` (module `Common`) holds the shared `Option` type, the opaque `Value` type and
character classes.

Loops and state changes are modelled as methods on classes, using `seq`, `map` and `array`
fields. Each method is proved against a function on values. The properties the library
promises are proved about those functions as lemmas.

## Model

All sources are under `src/FCollada/FCDocument/`.

| member | source | states |
|---|---|---|
| ExtraTree.CleanedNodeName | src/FCollada/FCDocument/FCDExtra.cpp:255-275 | The sanitised node name has the input's length. Its first character is a letter or `_` and every later one a letter, digit or `_`. At each position the input's character is kept when its class allows it there and becomes `_` otherwise, so a name already valid is unchanged. |
| ExtraTree.CleanedNodeNameIdempotent | src/FCollada/FCDocument/FCDExtra.cpp:255-275 | Cleaning a cleaned node name changes nothing. |
| ExtraTree.CleanName | src/FCollada/FCDocument/FCDExtra.cpp:255-275 | The in-place loop over the character buffer leaves exactly the sanitised name. |
| ExtraTree.CleanString | src/FCollada/FCDocument/FCDExtra.cpp:255-275 | The copying form of the sanitiser returns the sanitised name. |
| ExtraTree.FindAttributeIndex | src/FCollada/FCDocument/FCDExtra.cpp:300-307 | Returns the position of the first attribute with the name. It returns nothing exactly when no attribute has that name. |
| ExtraTree.AttributeValue | src/FCollada/FCDocument/FCDExtra.cpp:309-313 | Reading an absent attribute gives the empty string. Otherwise the result is the value of an attribute with that name. |
| ExtraTree.UpsertAttributeShape | src/FCollada/FCDocument/FCDExtra.cpp:283-297 | The upsert writes the pair at one position and leaves every other entry alone. It appends exactly when the name was absent. |
| ExtraTree.UpsertAttributeProperties | src/FCollada/FCDocument/FCDExtra.cpp:283-313 | The upsert keeps attribute names unique and valid, and a read of the name gives the new value. The count grows by one only for a new name. |
| ExtraTree.UpsertAttributeOthers | src/FCollada/FCDocument/FCDExtra.cpp:283-313 | The upsert does not change the value read under any other name. |
| ExtraTree.UpsertAttributesWellFormed | src/FCollada/FCDocument/FCDExtra.cpp:324-347 | Copying a node's attributes one by one keeps the attribute list well formed. |
| ExtraTree.UpsertAttributesIntoEmpty | src/FCollada/FCDocument/FCDExtra.cpp:324-347 | Copying a well-formed attribute list into an empty one reproduces it in order. |
| ExtraTree.CloneNodeValueWellFormed | src/FCollada/FCDocument/FCDExtra.cpp:324-347 | Cloning a node into a well-formed node gives a well-formed tree. |
| ExtraTree.CloneNodeIsCopy | src/FCollada/FCDocument/FCDExtra.cpp:324-347 | Cloning a well-formed node into an empty node reproduces the whole tree: name, content, attributes in order and children in order. |
| ExtraTree.FindTechniqueIndex | src/FCollada/FCDocument/FCDExtra.cpp:126-133 | Returns the first technique with the profile. It returns nothing exactly when none has it. |
| ExtraTree.FindTypeIndex | src/FCollada/FCDocument/FCDExtra.cpp:55-62 | Returns the first type with the name. It returns nothing exactly when none has it. |
| ExtraTree.CloneTechniqueIsCopy | src/FCollada/FCDocument/FCDExtra.cpp:382-395 | Cloning a technique into a fresh technique of the same profile reproduces it. |
| ExtraTree.CloneTechniquesIntoEmpty | src/FCollada/FCDocument/FCDExtra.cpp:147-162 | Cloning a type's techniques, whose profiles are unique, into an empty type reproduces the list in order. |
| ExtraTree.CloneTypeIsCopy | src/FCollada/FCDocument/FCDExtra.cpp:147-162 | Cloning a well-formed type into a fresh type of the same name reproduces it. |
| ExtraTree.CloneTypesIntoDefault | src/FCollada/FCDocument/FCDExtra.cpp:79-91 | Cloning a well-formed extra into a new extra reproduces the type list. The default unnamed type is found and is not duplicated. |
| ExtraTree.CloneTypesPrefix | src/FCollada/FCDocument/FCDExtra.cpp:79-91 | After the first n types have been cloned into a new extra, the clone holds exactly those n types. |
| ExtraTree.ChildrenNamedExact | src/FCollada/FCDocument/FCDExtra.cpp:218-225 | The children collected under a name are exactly the children carrying that name. |
| ExtraTree.LeavesExact | src/FCollada/FCDocument/FCDExtra.cpp:236-246 | The parameters collected are exactly the children that have no children. |
| ExtraTree.NamesOfExact | src/FCollada/FCDocument/FCDExtra.cpp:236-246 | The names collected with the parameters line up one to one with them. |
| ExtraTree.FirstNamed | src/FCollada/FCDocument/FCDExtra.cpp:208-216 | The child found is the first child with the name. It is null exactly when no child has it. |
| ExtraTree.ChildNamed | src/FCollada/FCDocument/FCDExtra.cpp:136-145 | A child found in a technique's root node carries the name. Nothing is found exactly when no child has it. |
| ExtraTree.FirstChildNamed | src/FCollada/FCDocument/FCDExtra.cpp:208-216 | On values, the first child with the name, or nothing exactly when there is none. |
| ExtraTree.RootNodeValue | src/FCollada/FCDocument/FCDExtra.cpp:136-145 | A hit is a child with the name of some technique's root node. There is no hit exactly when no technique has such a child. |
| ExtraTree.ENode.constructor | src/FCollada/FCDocument/FCDExtra.cpp:173-182 | A new node has empty name and content and no attributes or children. |
| ExtraTree.ENode.SetContent | src/FCollada/FCDocument/FCDExtra.cpp:189-199 | Setting content stores it and drops every child. Name and attributes are unchanged. |
| ExtraTree.ENode.SetName | src/FCollada/FCDocument/FCDExtra.cpp:248-253 | The stored name is the sanitised input. Nothing else changes. |
| ExtraTree.ENode.FindChildNode | src/FCollada/FCDocument/FCDExtra.cpp:208-216 | Returns the first child with the name, or null exactly when no child has it. |
| ExtraTree.ENode.FindParameter | src/FCollada/FCDocument/FCDExtra.cpp:227-234 | Returns the first child with the name, or null exactly when no child has it. |
| ExtraTree.ENode.FindChildrenNodes | src/FCollada/FCDocument/FCDExtra.cpp:218-225 | Appends the children with the name, in order, to the given list. The list's prefix is kept. |
| ExtraTree.ENode.FindParameters | src/FCollada/FCDocument/FCDExtra.cpp:236-246 | Appends the childless children and their names, in order, to the two lists. |
| ExtraTree.ENode.FindAttribute | src/FCollada/FCDocument/FCDExtra.cpp:300-307 | Returns the first attribute with the name. It returns nothing exactly when no attribute has it. |
| ExtraTree.ENode.ReadAttribute | src/FCollada/FCDocument/FCDExtra.cpp:309-313 | An absent name reads as the empty string. A present one reads as that attribute's value. |
| ExtraTree.ENode.AddAttribute | src/FCollada/FCDocument/FCDExtra.cpp:283-297 | Upserts the value under the sanitised name, after which reading that name gives the value. Name, content and children are unchanged. |
| ExtraTree.ENode.AddChildNode | src/FCollada/FCDocument/FCDExtra.cpp:349-355 | Appends one fresh empty child at the end and changes nothing else. |
| ExtraTree.ENode.AddNamedChildNode | src/FCollada/FCDocument/FCDExtra.cpp:357-364 | Appends one fresh child with the sanitised name at the end. |
| ExtraTree.ENode.AddParameter | src/FCollada/FCDocument/FCDExtra.cpp:315-322 | Appends one fresh childless child with the sanitised name and the value. |
| ExtraTree.ENode.Clone | src/FCollada/FCDocument/FCDExtra.cpp:324-347 | A null target gives null. Otherwise the target's tree becomes the value-level clone of the source into it, and the source is unchanged. |
| ExtraTree.ETechnique.constructor | src/FCollada/FCDocument/FCDExtra.cpp:373-378 | A new technique has the profile and an empty root node. |
| ExtraTree.ETechnique.Clone | src/FCollada/FCDocument/FCDExtra.cpp:382-395 | The technique is cloned into the given technique, or into a fresh one when none is given. The source is unchanged. |
| ExtraTree.EType.constructor | src/FCollada/FCDocument/FCDExtra.cpp:100-106 | A new type has the name and no techniques. |
| ExtraTree.EType.FindTechnique | src/FCollada/FCDocument/FCDExtra.cpp:126-133 | Returns the first technique with the profile, or null exactly when none has it. |
| ExtraTree.EType.AddTechnique | src/FCollada/FCDocument/FCDExtra.cpp:113-123 | Find-or-create. An existing technique is returned with the list unchanged; otherwise one fresh empty technique is appended. Profiles stay unique. |
| ExtraTree.EType.FindRootNode | src/FCollada/FCDocument/FCDExtra.cpp:136-145 | Returns a root-node child with the name from the first technique that has one, or null exactly when no technique does. |
| ExtraTree.EType.Clone | src/FCollada/FCDocument/FCDExtra.cpp:147-162 | The techniques are cloned into the given type, or into a fresh one, through find-or-create. The source is unchanged. |
| ExtraTree.Extra.constructor | src/FCollada/FCDocument/FCDExtra.cpp:25-33 | A new extra holds exactly one type, and its name is empty. |
| ExtraTree.Extra.DefaultCloneIsCopy | src/FCollada/FCDocument/FCDExtra.cpp:79-91 | Every valid extra clones into a new extra as an exact copy. |
| ExtraTree.Extra.FindType | src/FCollada/FCDocument/FCDExtra.cpp:55-62 | Returns the first type with the name, or null exactly when none has it. |
| ExtraTree.Extra.AddType | src/FCollada/FCDocument/FCDExtra.cpp:41-52 | Find-or-create. An existing type is returned with the list unchanged; otherwise one fresh type is appended. Names stay unique. |
| ExtraTree.Extra.HasContent | src/FCollada/FCDocument/FCDExtra.cpp:64-77 | True exactly when some technique of some type has a child node. |
| ExtraTree.Extra.Clone | src/FCollada/FCDocument/FCDExtra.cpp:79-91 | With no target the result is a fresh exact copy. With a target, the types are cloned into it by find-or-create. The source is unchanged. |
| Entities.NameLength | src/FCollada/FCDocument/FCDEntity.cpp:69-70 | The length read is the position of the first NUL, capped at 512 and at the input's length. |
| Entities.CleanedEntityName | src/FCollada/FCDocument/FCDEntity.cpp:67-91 | The cleaned name has that length. Its first character is a letter or `_` and every later one a letter, digit, `_` or `-`. At each position the input's character is kept when its class allows it there and becomes `_` otherwise. A valid name is kept, and empty input gives empty output. |
| Entities.CleanedEntityNameIdempotent | src/FCollada/FCDocument/FCDEntity.cpp:67-91 | Cleaning a cleaned entity name changes nothing. |
| Entities.NameLengthWhole | src/FCollada/FCDocument/FCDEntity.cpp:69-70 | An input of at most 512 characters with no NUL keeps its whole length. |
| Entities.CleanedEntityNameFirst | src/FCollada/FCDocument/FCDEntity.cpp:76-78 | The first character is kept when it is a letter or `_`, and becomes `_` otherwise. |
| Entities.CleanedEntityNameDropsSeparators | src/FCollada/FCDocument/FCDEntity.cpp:80-87 | A `:` or `.` anywhere in the name becomes `_`. |
| Entities.CleanName | src/FCollada/FCDocument/FCDEntity.cpp:67-91 | The character loop returns exactly the cleaned name. |
| Entities.Entity.constructor | src/FCollada/FCDocument/FCDEntity.cpp:35-43 | A new entity has empty name and note, no asset, and an extra holding just the default type. |
| Entities.Entity.SetName | src/FCollada/FCDocument/FCDEntity.cpp:93-97 | Stores the cleaned name, not the raw input, and sets the dirty flag. Note and asset are unchanged. |
| Entities.Entity.SetNote | src/FCollada/FCDocument/FCDEntity.cpp:127-131 | Stores the note and sets the dirty flag. Name and asset are unchanged. |
| Entities.Entity.GetNote | src/FCollada/FCDocument/FCDEntity.cpp:117-125 | The note read is non-empty exactly when HasNote answers true. |
| Entities.Entity.HasNote | src/FCollada/FCDocument/FCDEntity.cpp:117-120 | An entity has a note exactly when its note holds at least one character. |
| Entities.Entity.GetAsset | src/FCollada/FCDocument/FCDEntity.cpp:99-102 | An existing asset is returned. A fresh one is created and kept only when there was none. |
| Entities.Entity.FindDaeId | src/FCollada/FCDocument/FCDEntity.cpp:111-115 | Returns the entity itself exactly when its id equals the query, and null otherwise. |
| Entities.Entity.Clone | src/FCollada/FCDocument/FCDEntity.cpp:50-65 | The clone gets the name and note, and the extra is cloned into its extra. Without a target the clone is fresh, in the same document, and takes the id its caller supplies. The source's own extra is unchanged. |
| Entities.Entity.CloneNew | src/FCollada/FCDocument/FCDEntity.cpp:52-55 | Cloning with no target makes a fresh entity of the same document, with the supplied id and equal name, note and extra contents. |
| Entities.Entity.CloneInto | src/FCollada/FCDocument/FCDEntity.cpp:57-63 | Cloning into a target copies name and note and clones the extra into the target's extra. |
| DocumentLibraries.SearchOrder | src/FCollada/FCDocument/FCDocument.cpp:225-249 | The search visits the fifteen libraries in the fixed order: animations through physics models. |
| DocumentLibraries.FindInLibrary | src/FCollada/FCDocument/FCDocument.cpp:225-249 | A library search finds an entity with the id. It is null exactly when none has it. |
| DocumentLibraries.FindEntity | src/FCollada/FCDocument/FCDocument.cpp:225-249 | Finds an entity with the id in some library, or null exactly when no library holds one. |
| DocumentLibraries.FindEntityIsFirst | src/FCollada/FCDocument/FCDocument.cpp:225-249 | The result is the first entity with the id across all libraries in search order. |
| DocumentLibraries.FindEntityPrecedence | src/FCollada/FCDocument/FCDocument.cpp:225-249 | When library k is the first to hold the id, that library's hit is the result. |
| DocumentLibraries.FindInAppended | src/FCollada/FCDocument/FCDocument.cpp:227-230 | A library where no entity has the id answers the one entity appended with that id. |
| DocumentLibraries.FoundAfterAdd | src/FCollada/FCDocument/FCDocument.cpp:225-249 | Appending an entity with a fresh id to any one library makes the library-by-library search return that entity. |
| DocumentLibraries.FindEntityAfterAdd | src/FCollada/FCDocument/FCDocument.cpp:225-249 | Right after an entity is added to any of the fifteen libraries, FindEntity returns it for its id, provided no entity of the document had that id before. |
| EntityReferences.PlaceHolder.GetTarget | src/FCollada/FCDocument/FCDEntityReference.cpp:141 | A loaded target is kept. An unloaded one is loaded only on a forced load. |
| EntityReferences.ReferenceManager.FindForUrl | src/FCollada/FCDocument/FCDEntityReference.cpp:76 | Finds the first placeholder for the file URL, or null exactly when there is none. |
| EntityReferences.ReferenceManager.FindForDocument | src/FCollada/FCDocument/FCDEntityReference.cpp:171 | Finds a placeholder targeting the document, or null exactly when there is none. |
| EntityReferences.ReferenceManager.Add | src/FCollada/FCDocument/FCDEntityReference.cpp:79 | Appends one fresh placeholder with no dependents and keeps the manager consistent. |
| EntityReferences.ReferenceManager.FindOrAddForUrl | src/FCollada/FCDocument/FCDEntityReference.cpp:76-80 | Returns the existing placeholder for the URL, or else a fresh unloaded one, so two references to one file share a placeholder. |
| EntityReferences.ReferenceManager.FindOrAddForDocument | src/FCollada/FCDocument/FCDEntityReference.cpp:171-175 | Returns the existing placeholder for the document, or else a fresh one with the document's URL. |
| EntityReferences.LoadResult | src/FCollada/FCDocument/FCDEntityReference.cpp:135-164 | A missing document leaves the entity as it was, with a missing-target warning only under dereference. An empty id means no lookup. An unknown id gives the invalid-URI error. A hit is an entity of that document with that id. |
| EntityReferences.EntityReference.constructor | src/FCollada/FCDocument/FCDEntityReference.cpp:23-32 | A new reference is unresolved, has no id and no placeholder, and is registered with the manager. |
| EntityReferences.EntityReference.TargetId | src/FCollada/FCDocument/FCDEntityReference.cpp:42-54 | The id named is the entity's own id when resolved, and the stored id otherwise. |
| EntityReferences.EntityReference.GetUri | src/FCollada/FCDocument/FCDEntityReference.cpp:42-54 | The URI is `#` and the target id, prefixed by the placeholder's absolute file URL when there is a placeholder. |
| EntityReferences.EntityReference.SetPlaceHolder | src/FCollada/FCDocument/FCDEntityReference.cpp:112-133 | The same placeholder changes nothing. On a switch, the reference leaves the old placeholder's dependents, which is released at zero, and joins the new one's. |
| EntityReferences.EntityReference.SetEntityDocument | src/FCollada/FCDocument/FCDEntityReference.cpp:166-178 | The own document, or none, clears the placeholder. Another document gives its find-or-create placeholder. |
| EntityReferences.EntityReference.SetEntity | src/FCollada/FCDocument/FCDEntityReference.cpp:88-109 | Stores the entity and its id, with the placeholder null exactly for an entity of the own document. Null clears entity and placeholder but keeps the id. |
| EntityReferences.EntityReference.SetUri | src/FCollada/FCDocument/FCDEntityReference.cpp:66-84 | The id becomes the cleaned fragment. A file part gives the find-or-create placeholder for its absolute URL; no file part clears the placeholder. |
| EntityReferences.EntityReference.LoadEntity | src/FCollada/FCDocument/FCDEntityReference.cpp:135-164 | Searches the placeholder's target, else the own document, and stores the result that the load rules give. |
| EntityReferences.EntityReference.GetEntity | src/FCollada/FCDocument/FCDEntityReference.cpp:56-64 | A resolved reference returns its entity with no load. An unresolved one loads first. |
| EntityReferences.EntityReference.OnObjectReleased | src/FCollada/FCDocument/FCDEntityReference.cpp:180-193 | Release of the placeholder clears it. Release of the entity clears it and keeps its id only when a placeholder remains. Any other object changes nothing. |
| EntityReferences.EntityReference.Release | src/FCollada/FCDocument/FCDEntityReference.cpp:34-40 | Destruction leaves the placeholder's dependents and unregisters the reference. A placeholder left with no dependent is dropped. |
| Documents.Document.constructor | src/FCollada/FCDocument/FCDocument.cpp:75-126 | A new document has empty libraries, layers and animated set, and no physics roots. Its visual-scene root reference exists, unresolved and registered, and its extra holds the default type. |
| Documents.Document.RegisterAnimatedValue | src/FCollada/FCDocument/FCDocument.cpp:252-272 | A value with no animated values is released and not added. Any other value joins the set. |
| Documents.Document.UnregisterAnimatedValue | src/FCollada/FCDocument/FCDocument.cpp:275-300 | The value leaves the set. Null, or an absent value, changes nothing. |
| Documents.Document.AddLayer | src/FCollada/FCDocument/FCDocument.cpp:194-199 | Appends one fresh unnamed layer. |
| Documents.Document.FindLayer | src/FCollada/FCDocument/FCDocument.cpp:217 | Returns the first layer with the name, or null exactly when none has it. |
| Documents.Document.ReleaseLayer | src/FCollada/FCDocument/FCDocument.cpp:202-205 | Removes the layer from its place, keeping the other layers in order. An absent layer changes nothing. |
| Documents.Document.AddPhysicsSceneInstanceReference | src/FCollada/FCDocument/FCDocument.cpp:181-185 | Appends one fresh unresolved reference to the physics roots. |
| Documents.Document.AddPhysicsSceneInstance | src/FCollada/FCDocument/FCDocument.cpp:187-191 | Appends one reference whose entity is the scene. |
| Documents.Document.NewVisualScene | src/FCollada/FCDocument/FCDocument.cpp:342 | Appends a fresh visual scene of this document to the visual-scene library. If its id was not in use, FindEntity then returns the new scene for it. |
| Documents.Document.NewPhysicsScene | src/FCollada/FCDocument/FCDocument.cpp:348 | Appends a fresh physics scene of this document to the physics-scene library. If its id was not in use, FindEntity then returns the new scene for it. |
| Documents.Document.AddPhysicsScene | src/FCollada/FCDocument/FCDocument.cpp:346-351 | Adds the scene to its library and appends exactly one root reference, whose entity is the new scene. A fresh id then finds the new scene. |
| Documents.Document.AddVisualScene | src/FCollada/FCDocument/FCDocument.cpp:340-345 | Adds the scene to its library, where a fresh id then finds it. A root that already has an entity keeps it. An unresolved root first loads its id: it takes the loaded entity when the load finds one and the new scene otherwise, and the load's report is returned. |
| Documents.Document.AdoptVisualScene | src/FCollada/FCDocument/FCDocument.cpp:343 | The root step of AddVisualScene. An unresolved root ends with the entity its load finds, or else `scene`, and returns the load's report. A resolved root is kept. |
| Documents.Document.GetVisualSceneInstance | src/FCollada/FCDocument/FCDocument.cpp:164-170 | Returns the root's entity when it is a visual scene, and null otherwise. An unresolved root first loads its id, and its entity and the report are the load's result. |
| Documents.Document.GetPhysicsSceneInstance | src/FCollada/FCDocument/FCDocument.cpp:172-179 | An index past the list gives null. Otherwise the result is that root's entity when it is a physics scene, and null otherwise. An unresolved root first loads its id, and its entity and the report are the load's result. |
| GeometryPolygons.SumAppend | src/FCollada/FCDocument/FCDGeometryPolygons.cpp:257-265 | The total of counts splits over concatenation, which is what keeps the recalculated total in step when a face is appended. |
| GeometryPolygons.HolesBefore | src/FCollada/FCDocument/FCDGeometryPolygons.cpp:136-144 | The holes counted before a face never exceed the number of holes. |
| GeometryPolygons.FacePositionInRange | src/FCollada/FCDocument/FCDGeometryPolygons.cpp:117-133 | On a well-formed list, every face below the face count lies in the count list. |
| GeometryPolygons.NextFaceHoles | src/FCollada/FCDocument/FCDGeometryPolygons.cpp:136-157 | The holes before the next face are this face's holes-before plus its own hole count. |
| GeometryPolygons.FaceOffsetsAdjacent | src/FCollada/FCDocument/FCDGeometryPolygons.cpp:117-171 | The next face's vertex offset is this face's offset plus its vertex count, holes included. |
| GeometryPolygons.ErasedCounts | src/FCollada/FCDocument/FCDGeometryPolygons.cpp:108-110 | Erasing a face and its holes removes that many entries and exactly the face's vertex count from the total. |
| GeometryPolygons.RemoveFaceLeavesStaleHoles | src/FCollada/FCDocument/FCDGeometryPolygons.cpp:107-110 | Counts [4,3,4] with a hole at 1 have two faces. After the face erase, the unchanged hole list leaves a face count of zero. |
| GeometryPolygons.RemovedHoles | src/FCollada/FCDocument/FCDGeometryPolygons.cpp:107-110 | The corrected hole list loses exactly the removed face's holes. |
| GeometryPolygons.RemovedHolesWellFormed | src/FCollada/FCDocument/FCDGeometryPolygons.cpp:107-110 | With the corrected hole list, the lists stay well formed and the face count drops by exactly one. |
| GeometryPolygons.PolyType | src/FCollada/FCDocument/FCDGeometryPolygons.cpp:275-285 | The type is -1, or the first count read as an int32. |
| GeometryPolygons.TrianglesPolyType | src/FCollada/FCDocument/FCDGeometryPolygons.cpp:268-285 | A non-empty list is all triangles exactly when its poly type is 3. |
| GeometryPolygons.Resized | src/FCollada/FCDocument/FCDGeometryPolygons.cpp:58-78 | A resized buffer keeps its leading indices and is zero-filled after them. |
| GeometryPolygons.GrownCountMatches | src/FCollada/FCDocument/FCDGeometryPolygons.cpp:68-73 | An input holding one index per face vertex still does after growing by the new face's degree. |
| GeometryPolygons.RemovedRange | src/FCollada/FCDocument/FCDGeometryPolygons.cpp:95-104 | Removal keeps the indices before the offset and shifts the later ones down. The buffer keeps max(offset, length - count) entries, so a range running past the end cuts it at the offset. An offset past the end changes nothing. |
| GeometryPolygons.PolygonsInput.constructor | src/FCollada/FCDocument/FCDGeometryPolygons.cpp:173-181 | A new input reads the source and has an empty index buffer. |
| GeometryPolygons.PolygonsInput.SetIndexCount | src/FCollada/FCDocument/FCDGeometryPolygons.cpp:68-72 | The buffer is resized to the count, keeping the leading indices. |
| GeometryPolygons.PolygonsInput.Grow | src/FCollada/FCDocument/FCDGeometryPolygons.cpp:68-73 | An owning input of a non-empty set grows by the degree. An empty input of a new set gets exactly the degree. Any other input is unchanged. |
| GeometryPolygons.PolygonsInput.RemoveIndexRange | src/FCollada/FCDocument/FCDGeometryPolygons.cpp:94-104 | The in-place shift loop leaves the buffer with the range removed, cut at the offset when the range runs past the end. It requires only that the count is at most the buffer's length. |
| GeometryPolygons.Polygons.constructor | src/FCollada/FCDocument/FCDGeometryPolygons.cpp:31-44 | A new polygon set has no inputs, faces or holes. |
| GeometryPolygons.Polygons.AddInput | src/FCollada/FCDocument/FCDGeometryPolygons.cpp:173-181 | Appends one fresh input for the source, owning no indices yet. |
| GeometryPolygons.Polygons.GetHoleCountBefore | src/FCollada/FCDocument/FCDGeometryPolygons.cpp:136-144 | The counting loop returns the number of holes before the face. |
| GeometryPolygons.Polygons.GetHoleCount | src/FCollada/FCDocument/FCDGeometryPolygons.cpp:147-157 | The loop returns the length of the run of holes that follows the face. |
| GeometryPolygons.Polygons.GetFaceVertexOffset | src/FCollada/FCDocument/FCDGeometryPolygons.cpp:117-133 | The summing loop returns the total of the counts before the face's position, or 0 past the end. |
| GeometryPolygons.Polygons.GetFaceVertexCount | src/FCollada/FCDocument/FCDGeometryPolygons.cpp:160-171 | The loop returns the face's count plus the counts of its holes. |
| GeometryPolygons.Polygons.Recalculate | src/FCollada/FCDocument/FCDGeometryPolygons.cpp:257-265 | Sets the total face-vertex count to the sum of the counts and marks the set dirty. |
| GeometryPolygons.Polygons.IsTriangles | src/FCollada/FCDocument/FCDGeometryPolygons.cpp:268-273 | True exactly when every count is 3. |
| GeometryPolygons.Polygons.TestPolyType | src/FCollada/FCDocument/FCDGeometryPolygons.cpp:275-285 | Returns the common count of a non-empty uniform list, and -1 otherwise. |
| GeometryPolygons.Polygons.FindInput | src/FCollada/FCDocument/FCDGeometryPolygons.cpp:235-246 | Drops a leading `#` from the id. Returns the first input reading that source, or null exactly when none does. |
| GeometryPolygons.Polygons.IsHoleFaceHole | src/FCollada/FCDocument/FCDGeometryPolygons.cpp:189-192 | A position is a hole exactly when its value cast to uint32 is in the hole list. Below 2^32 that is the position itself. |
| GeometryPolygons.Polygons.AddHole | src/FCollada/FCDocument/FCDGeometryPolygons.cpp:194-205 | A hole already present changes nothing. Otherwise exactly that position is inserted and the list stays strictly ascending. |
| GeometryPolygons.Polygons.AddFace | src/FCollada/FCDocument/FCDGeometryPolygons.cpp:58-78 | Appends the degree and grows the index buffers as the ownership rule says. Holes and inputs are unchanged. The total is recalculated, and inputs with one index per face vertex keep that match. |
| GeometryPolygons.Polygons.RemoveFace | src/FCollada/FCDocument/FCDGeometryPolygons.cpp:81-114 | A face past the count changes nothing: counts, total, dirty flag and every index buffer's contents stay as they were. Otherwise the face and its holes leave the count list, each input loses the face's index range (cut at the offset when that range runs past its end), and the hole list is unchanged, as written. The total is recalculated and the polygon set is marked dirty. |
| GeometryPolygons.Polygons.RemoveFaceAndHoles | src/FCollada/FCDocument/FCDGeometryPolygons.cpp:81-114 | The corrected removal also drops the face's holes and shifts later holes down. The lists stay well formed and the face count drops by exactly one. Each input loses the face's index range as in RemoveFace, and the polygon set is marked dirty. |
| EffectTools.FirstHitAt | src/FCollada/FCDocument/FCDEffectTools.cpp:496-506 | When position i holds the first hit, the search returns it. |
| EffectTools.FirstHitIsHead | src/FCollada/FCDocument/FCDEffectTools.cpp:496-506 | A first-hit search returns the head of what the collecting search gathers. |
| EffectTools.FirstInTechnique | src/FCollada/FCDocument/FCDEffectTools.cpp:568-578 | A missing technique or empty query gives null. A hit is a parameter of the technique matching the query. |
| EffectTools.FirstInProfile | src/FCollada/FCDocument/FCDEffectTools.cpp:529-566 | A missing profile or empty query gives null. A hit matches the query. |
| EffectTools.FirstInEffect | src/FCollada/FCDocument/FCDEffectTools.cpp:508-527 | A missing effect or empty query gives null. A hit matches the query. |
| EffectTools.FirstInMaterial | src/FCollada/FCDocument/FCDEffectTools.cpp:496-506 | A missing material or empty query gives null. A hit matches the query. |
| EffectTools.FirstInMaterialInstance | src/FCollada/FCDocument/FCDEffectTools.cpp:483-494 | A missing material instance or empty query gives null. A hit matches the query. |
| EffectTools.FirstInGeometryInstance | src/FCollada/FCDocument/FCDEffectTools.cpp:471-481 | A missing geometry instance or empty query gives null. A hit is one of its parameters matching the query. |
| EffectTools.AllInTechnique | src/FCollada/FCDocument/FCDEffectTools.cpp:784-793 | A missing technique or empty query collects nothing. |
| EffectTools.AllInProfile | src/FCollada/FCDocument/FCDEffectTools.cpp:747-782 | A missing profile or empty query collects nothing. |
| EffectTools.AllInEffect | src/FCollada/FCDocument/FCDEffectTools.cpp:728-745 | A missing effect or empty query collects nothing. |
| EffectTools.AllInMaterial | src/FCollada/FCDocument/FCDEffectTools.cpp:713-726 | A missing material or empty query collects nothing. |
| EffectTools.AllInMaterialInstance | src/FCollada/FCDocument/FCDEffectTools.cpp:697-711 | A missing material instance or empty query collects nothing. |
| EffectTools.TechniqueCollectsMatches | src/FCollada/FCDocument/FCDEffectTools.cpp:784-793 | Every parameter collected from a technique matches the query. |
| EffectTools.ProfileCollectsMatches | src/FCollada/FCDocument/FCDEffectTools.cpp:747-782 | Every parameter collected from a profile matches the query. |
| EffectTools.EffectCollectsMatches | src/FCollada/FCDocument/FCDEffectTools.cpp:728-745 | Every parameter collected from an effect matches the query. |
| EffectTools.MaterialCollectsMatches | src/FCollada/FCDocument/FCDEffectTools.cpp:713-726 | Every parameter collected from a material matches the query. |
| EffectTools.MaterialInstanceCollectsMatches | src/FCollada/FCDocument/FCDEffectTools.cpp:697-711 | Every parameter collected from a material instance matches the query. |
| EffectTools.TechniqueFirstIsCollected | src/FCollada/FCDocument/FCDEffectTools.cpp:568-578 | The first hit in a technique is the first parameter the collecting search gathers there. |
| EffectTools.ProfileFirstIsCollected | src/FCollada/FCDocument/FCDEffectTools.cpp:529-566 | The first hit in a profile is the first parameter the collecting search gathers there: local parameters before techniques or texture sets. |
| EffectTools.EffectFirstIsCollected | src/FCollada/FCDocument/FCDEffectTools.cpp:508-527 | The first hit in an effect is the first parameter the collecting search gathers there, in profile order. |
| EffectTools.MaterialFirstIsCollected | src/FCollada/FCDocument/FCDEffectTools.cpp:496-506 | The first hit in a material is the first gathered: its own parameters before its effect's. |
| EffectTools.MaterialInstanceFirstIsCollected | src/FCollada/FCDocument/FCDEffectTools.cpp:483-494 | The first hit in a material instance is the first gathered: its material's parameters before the effect's. |
| EffectTools.LocalOnlyNarrows | src/FCollada/FCDocument/FCDEffectTools.cpp:540-564 | A local-only search collects a prefix of the full search, and any local-only hit is also the full search's hit. A standard profile searches its texture sets either way. |
| EffectTools.FindInTechnique | src/FCollada/FCDocument/FCDEffectTools.cpp:568-578 | The search loop returns the technique's first hit. |
| EffectTools.FindInProfile | src/FCollada/FCDocument/FCDEffectTools.cpp:529-566 | The search loops return the profile's first hit. |
| EffectTools.FindInEffect | src/FCollada/FCDocument/FCDEffectTools.cpp:508-527 | The search loops return the effect's first hit. |
| EffectTools.FindInMaterial | src/FCollada/FCDocument/FCDEffectTools.cpp:496-506 | The search returns the material's first hit. |
| EffectTools.FindInMaterialInstance | src/FCollada/FCDocument/FCDEffectTools.cpp:483-494 | The search returns the material instance's first hit. |
| EffectTools.FindInGeometryInstance | src/FCollada/FCDocument/FCDEffectTools.cpp:471-481 | The search loop returns the geometry instance's first hit. |
| EffectTools.CollectInTechnique | src/FCollada/FCDocument/FCDEffectTools.cpp:784-793 | Appends the technique's matches in order and keeps every earlier list entry. |
| EffectTools.CollectInProfile | src/FCollada/FCDocument/FCDEffectTools.cpp:747-782 | Appends the profile's matches in traversal order and keeps every earlier list entry. |
| EffectTools.CollectInEffect | src/FCollada/FCDocument/FCDEffectTools.cpp:728-745 | Appends the effect's matches in traversal order and keeps every earlier list entry. |
| EffectTools.CollectInMaterial | src/FCollada/FCDocument/FCDEffectTools.cpp:713-726 | Appends the material's matches in traversal order and keeps every earlier list entry. |
| EffectTools.CollectInMaterialInstance | src/FCollada/FCDocument/FCDEffectTools.cpp:697-711 | Appends the material instance's matches in traversal order and keeps every earlier list entry. |
| EffectTools.FirstOfThree | src/FCollada/FCDocument/FCDEffectTools.cpp:79-96 | The source chosen is the first of material, effect and profile candidates that is present and of a wanted type. |
| EffectTools.LinkCandidates | src/FCollada/FCDocument/FCDEffectTools.cpp:73-75 | The three candidates all carry the parameter's reference. |
| EffectTools.LinkTarget | src/FCollada/FCDocument/FCDEffectTools.cpp:72 | The parameter that linking may change is one of the geometry instance's, with the semantic. |
| EffectTools.FindLinkCandidates | src/FCollada/FCDocument/FCDEffectTools.cpp:73-75 | The lookups return the three candidates by reference. |
| EffectTools.LinkAnimatedFloat | src/FCollada/FCDocument/FCDEffectTools.cpp:68-98 | Nothing changes for an empty reference or a missing or non-float geometry parameter. Otherwise that parameter takes the value of the first float among material, effect and profile. |
| EffectTools.Converted | src/FCollada/FCDocument/FCDEffectTools.cpp:110-188 | Values of the same type are copied. Vector to float3 narrows and float3 to vector widens. |
| EffectTools.LinkAnimatedVector | src/FCollada/FCDocument/FCDEffectTools.cpp:100-190 | As for floats, with the first float3 or vector candidate, converted to the geometry parameter's type. |
| EffectTools.CommonProfile | src/FCollada/FCDocument/FCDEffectTools.cpp:298-299 | The profile used is a standard profile of the effect. There is none exactly when the effect has no standard profile. |
| EffectTools.StandardFor | src/FCollada/FCDocument/FCDEffectTools.cpp:295-305 | A standard parameter is found only through the material's effect's standard profile, under the semantic. |
| EffectTools.AnimatedFloat | src/FCollada/FCDocument/FCDEffectTools.cpp:291-343 | A missing material, effect, profile or float semantic gives null. Otherwise the result is the standard parameter itself or a float parameter. |
| EffectTools.AnimatedColor | src/FCollada/FCDocument/FCDEffectTools.cpp:192-289 | A missing material, effect, profile or colour semantic gives null with the flag unchanged. A replacement is a float3 or vector parameter, and the flag tells which. |
| EffectTools.DefaultFloat | src/FCollada/FCDocument/FCDEffectTools.cpp:424-465 | A semantic the profile lacks gives null. Otherwise the result is the standard parameter or a float parameter. |
| EffectTools.DefaultColor | src/FCollada/FCDocument/FCDEffectTools.cpp:345-422 | A semantic the profile lacks gives null with the flag unchanged. |
| EffectTools.DefaultIsAnimatedWithoutGeometry | src/FCollada/FCDocument/FCDEffectTools.cpp:345-465 | The default lookups are the animated lookups with no geometry instance. |
| EffectTools.AnimatedPrecedence | src/FCollada/FCDocument/FCDEffectTools.cpp:192-343 | The first of geometry instance, material, effect and profile that holds the reference decides the result: that parameter if its type fits, null otherwise. With no holder, the standard parameter itself is the result. |
| Controllers.Controller.constructor | src/FCollada/FCDocument/FCDController.cpp:29-34 | A new controller has neither a skin nor a morph part. |
| Controllers.Controller.CreateSkinController | src/FCollada/FCDocument/FCDController.cpp:42-48 | Creates a fresh skin owned by the controller and drops any morph part. The base target is then empty. |
| Controllers.Controller.CreateMorphController | src/FCollada/FCDocument/FCDController.cpp:51-57 | Creates a fresh morph with no targets owned by the controller and drops any skin part. The base target is then empty. |
| Controllers.Controller.BaseTarget | src/FCollada/FCDocument/FCDController.cpp:59-70 | With a skin part the base target is the skin's target, with only a morph part the morph's base target, and a controller with neither part has no base target. |
| Controllers.Controller.GetBaseGeometry | src/FCollada/FCDocument/FCDController.cpp:73-86 | Following base targets through controllers ends at the chain's geometry, or null when the chain ends elsewhere. |
| Controllers.Controller.GetBaseGeometryController | src/FCollada/FCDocument/FCDController.cpp:89-105 | The answer is the last controller on the chain, the value BaseGeometryController gives. It is non-null exactly when the base geometry is, and a hit is the controller whose base target is that geometry. |
| Controllers.ControllerStep | src/FCollada/FCDocument/FCDController.cpp:76-85 | A chain through a controller resolves to what the controller's own base target resolves to. |
| Controllers.BaseGeometryController | src/FCollada/FCDocument/FCDController.cpp:89-105 | On values: the last controller before the base geometry, or null exactly when there is no base geometry. A controller whose own base target is a geometry answers itself. |
| Controllers.LastControllerTargetsEnd | src/FCollada/FCDocument/FCDController.cpp:93-104 | The last controller of a chain that ends at a geometry targets that geometry directly. |
| Controllers.SimilarityIsNotSymmetric | src/FCollada/FCDocument/FCDMorphController.cpp:100-166 | A base mesh with no position source counts 0 vertices, so it accepts a mesh whose position source holds 0 values. The converse fails: that mesh as base does not accept the position-less mesh. |
| Controllers.SimilarityOnCountedShapes | src/FCollada/FCDocument/FCDMorphController.cpp:100-166 | Among shapes whose counts are known, similarity is reflexive, symmetric and transitive. |
| Controllers.KeptSelects | src/FCollada/FCDocument/FCDMorphController.cpp:62-72 | The targets kept are exactly the targets whose geometry is similar to the base. |
| Controllers.MorphController.constructor | src/FCollada/FCDocument/FCDMorphController.cpp:33-39 | A new morph has no base target and no targets. |
| Controllers.MorphController.ResolveEntity | src/FCollada/FCDocument/FCDMorphController.cpp:52-57 | Returns the geometry a target entity resolves to: itself, or a controller's base geometry. |
| Controllers.MorphController.IsSimilar | src/FCollada/FCDocument/FCDMorphController.cpp:100-166 | True exactly when both the base and the entity resolve to similar geometries. An empty entity is never similar. |
| Controllers.MorphController.SetBaseTarget | src/FCollada/FCDocument/FCDMorphController.cpp:47-81 | A target that resolves to a geometry becomes the base, and exactly the similar morph targets are kept, in order. Any other target leaves no base and no morph targets. |
| Controllers.MorphController.RemoveDissimilar | src/FCollada/FCDocument/FCDMorphController.cpp:62-72 | The in-place filter loop keeps exactly the targets similar to the base, in order. |
| Controllers.MorphController.AddTarget | src/FCollada/FCDocument/FCDMorphController.cpp:84-97 | With no base, or a similar geometry, exactly one fresh target with the geometry and weight is appended and returned. Otherwise null is returned and the list is unchanged. |
| Controllers.MorphTarget.constructor | src/FCollada/FCDocument/FCDMorphController.cpp:175-180 | A new morph target belongs to its morph, has no geometry and a zero weight. |
| Controllers.MorphTarget.SetGeometryAsWritten | src/FCollada/FCDocument/FCDMorphController.cpp:187-202 | As written: the old geometry is released when this target was its only tracker, even when it is the geometry passed in. The new one is stored when accepted. Otherwise the old geometry's released flag is unchanged. |
| Controllers.SameGeometryIsReleasedAndKept | src/FCollada/FCDocument/FCDMorphController.cpp:187-202 | Setting the same geometry twice, as written, leaves the target holding a released geometry. |
| Controllers.MorphTarget.SetGeometry | src/FCollada/FCDocument/FCDMorphController.cpp:187-202 | Corrected: the old geometry is released only when it is replaced. The stored geometry is never a released one, and a geometry that is not replaced keeps its released flag. |

## Left out

- `FCDEffectTools::SynchronizeAnimatedParams` (FCDEffectTools.cpp:28-66) is not modelled. It
  walks the animation curves of every parameter, and FCDAnimated is not part of this model.
- Floating-point values are opaque `Value`s. The vector/float3 conversions of
  `LinkAnimatedParamCommonVector` are passed in as the `narrow` and `widen` functions.
- `IsEquivalent` on strings is modelled as string equality. A null query string and an empty
  one are merged into the empty string.
- `FUDaeTextureChannel::COUNT` texture buckets are given as a sequence of buckets, whose length
  stands for the channel count.
- `FCDEffectProfile` classes are reduced to an FX kind, holding techniques, and a standard kind,
  holding texture buckets and its standard parameters by semantic. The first standard profile
  stands for `FindProfile(COMMON)`.
- EffectTools: the nested calls to the technique overloads use the header's default for
  `localOnly`, which is taken to be false. The header is not part of this model.
- Names and strings are sequences of characters. There is no Unicode handling and no
  wide/narrow `fchar` distinction.
- Dirty flags are modelled only where the code sets them on the object modelled (entities,
  entity references, polygons). `SetNewChildFlag` and the document's unique-name map are not
  modelled.
- `FCDENode::SetAnimated` and the animated binding of nodes are not modelled. Clone does not
  copy the binding either.
- `FCDExtra` objects are not tracked through their owning entity or document; the
  `FCDObjectWithId` base is reduced to a document identity and a dae id.
- DocumentLibraries.FindInLibrary and DocumentLibraries.FindEntity: an entity answers only for
  its own id, as the base `FCDEntity::FindDaeId` does. The overrides that also search an
  entity's children (scene nodes, animations) belong to classes that are not part of this
  model. So the id of a node nested in a visual scene is not found, and loading a reference to
  it reports an invalid URI.
- Documents: ids are not made unique, because the unique-name map is not modelled. The
  found-after-add guarantee of the scene-creating methods therefore holds only for an id no
  entity of the document already has.
- Entities.Entity.Clone: what `FCDObjectWithId::Clone` copies is not modelled, because that
  base class is not part of this model. A new clone takes the id its caller supplies and an
  existing clone keeps its own id.
- `FCDPlaceHolder` and `FCDExternalReferenceManager` are not part of this model. Their
  behaviour is modelled from how FCDEntityReference.cpp uses them: a placeholder has a file URL,
  a loaded-document target and a set of dependent references.
- Loading an external document is a parameter (`loaded`), the global dereference flag is a
  parameter, and the URI parser is reduced to a `Uri` value with a fragment, a file flag and an
  absolute path. `CleanId` and `MakeAbsolute` are passed in as functions.
- Documents are identities, and their libraries are values in a `map` passed to lookups.
- Error and warning reports are returned as values instead of being sent to the error handler.
- `Document.GetPhysicsSceneInstance`: an index past a non-empty list, which the code traps with
  an assertion, is modelled as returning null.
- FCDocument's constructor: only the state that the modelled operations read is created.
  Libraries are values, and the asset, version and unique-name map are not modelled.
- GeometryPolygons: `GetFaceCount`, `OwnsIndices` and the index buffer's `SetIndexCount` are
  declared in headers that are not part of this model.
  - The face count is taken as the count list's length minus the hole list's length.
  - An input owns indices when its buffer is non-empty.
  - A resize keeps the leading indices, zero-fills new ones and reallocates the buffer.
- GeometryPolygons: the `Recalculate` that `AddFace` and `RemoveFace` call on the parent mesh is
  modelled as the polygon set's own total. The mesh is not part of this model.
- GeometryPolygons.PolygonsInput.RemoveIndexRange: a face whose index count exceeds an owning
  input's buffer length is excluded. There the code's unsigned `inputIndexCount - indexCount`
  wraps around and its shift loop reads past the buffer.
- GeometryPolygons.Polygons.AddInput: the input's `offset` argument and its `SetOffset` call are
  not modelled, because no modelled operation reads an input's offset. The source object is
  reduced to its id.
- `FCDGeometryPolygons::Clone`, `FindInputs` and the two other `FindInput` overloads are not
  modelled.
- Controllers: the chain walks take a ghost bound `n` and a ghost `World`, which holds the
  controllers, skins and morphs a chain may pass through. They require the chain to end within
  `n` steps. The code has no guard against a cyclic chain, on which it does not terminate.
- Controllers.MorphController.SetBaseTarget requires the new target's chain not to pass through
  this morph, so that changing the base does not change the chain being resolved.
- Controllers: the skin controller's own setters (FCDSkinController.cpp) are not part of this
  model. A skin is reduced to its target.
- Controllers: geometries are reduced to their shape. A mesh has an optional position count and
  a spline has a control-vertex count. Vertex data, and a geometry that is both mesh and spline,
  are not modelled.
- Controllers: the morph's interpolation method and the targets' animated weights are not
  modelled. The weight is an opaque value, and `ZeroValue` stands for the 0.0 a new target
  starts with.
- Controllers: releasing a geometry is modelled as a `released` flag. Releasing a morph target
  is modelled as its removal from the list. Whether a target is its geometry's only tracker is a
  parameter (`soleTracker`) of `SetGeometry`.

## Findings

| source | as written | input that shows it | evidently intended | confidence | as-written member | corrected member |
|---|---|---|---|---|---|---|
| src/FCollada/FCDocument/FCDGeometryPolygons.cpp:107-110 | `RemoveFace` erases the face and its holes from the count list but leaves the hole list unchanged. | Counts [4,3,4] with a hole at 1 (two faces); `RemoveFace(0)` leaves counts [4] with the hole at 1, so the face count becomes 0 instead of 1. | The removed face's holes leave the hole list, and later holes shift down by the number of entries erased. | not executed | GeometryPolygons.RemoveFaceLeavesStaleHoles | GeometryPolygons.Polygons.RemoveFaceAndHoles |
| src/FCollada/FCDocument/FCDMorphController.cpp:187-202 | `SetGeometry` releases the old geometry when this target is its only tracker, before comparing it with the new one. | A target whose only tracked geometry is g receives `SetGeometry(g)` again: g is released, and then the released g is stored. | Release the old geometry only when it is replaced by a different one. | not executed | Controllers.SameGeometryIsReleasedAndKept | Controllers.MorphTarget.SetGeometry |
